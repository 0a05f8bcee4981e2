/**
 * The current harmonizer's per-release step: infer the survey year and
 * month, map every output field through the resolver and its translator,
 * record per-field diagnostics, and force the year and month fields to
 * the inferred values.
 */
module HarmonizerV8 {
  import opened Wrappers
  import opened Text
  import opened Cells
  import opened Resolver
  import opened Translators
  import opened HarmonizerConfig
  import ReleaseNames
  import Seqs

  // ---------------------------------------------------------------------
  // Year inference
  // ---------------------------------------------------------------------

  /**
   * The mode of a cleaned column as pandas computes it (mode().iloc[0]);
   * missing when the column has no value and the lookup raises.
   */
  type ModeOracle = seq<Option<int>> -> Option<int>

  /** The cleaned cells of the column a name resolves to through the column map. */
  function CleanedAt(df: Frame, cmu: map<string, nat>, name: string): seq<Option<int>>
    requires IndexesInto(cmu, df) && Upper(name) in cmu
  {
    CleanColumn(df[cmu[Upper(name)]].col.cells)
  }

  /**
   * The fallback loop exactly as written: a present column's mode replaces
   * the year (a failed mode leaves it alone), and the loop stops at the
   * first truthy year, so a mode of 0 is kept without stopping.
   */
  function YearLoopAsWritten(df: Frame, cmu: map<string, nat>, mode: ModeOracle, cols: seq<string>, year: Option<int>): (r: Option<int>)
    requires IndexesInto(cmu, df)
    ensures year.Some? ==> r.Some?
    ensures r.Some? && r != year ==> exists i :: 0 <= i < |cols| && Upper(cols[i]) in cmu && mode(CleanedAt(df, cmu, cols[i])) == r
  {
    if cols == [] then year
    else if Upper(cols[0]) in cmu then
      var y := if mode(CleanedAt(df, cmu, cols[0])).Some? then mode(CleanedAt(df, cmu, cols[0])) else year;
      if y.Some? && y.value != 0 then y
      else
        var r := YearLoopAsWritten(df, cmu, mode, cols[1..], y);
        assert r.Some? && r != y ==> exists i :: 1 <= i < |cols| && Upper(cols[i]) in cmu && mode(CleanedAt(df, cmu, cols[i])) == r;
        r
    else
      var r := YearLoopAsWritten(df, cmu, mode, cols[1..], year);
      assert r.Some? && r != year ==> exists i :: 1 <= i < |cols| && Upper(cols[i]) in cmu && mode(CleanedAt(df, cmu, cols[i])) == r;
      r
  }

  /** The year the release is processed under, as written: 2020 only when nothing was found at all. */
  function InferYearAsWritten(fileYear: Option<int>, df: Frame, cmu: map<string, nat>, mode: ModeOracle): int
    requires IndexesInto(cmu, df)
  {
    if fileYear.Some? then fileYear.value
    else YearLoopAsWritten(df, cmu, mode, YearFallbackColumns, None).GetOr(2020)
  }

  /** The first fallback column that is present and whose mode is a non-zero year. */
  function FirstYearMode(df: Frame, cmu: map<string, nat>, mode: ModeOracle, cols: seq<string>): (r: Option<int>)
    requires IndexesInto(cmu, df)
    ensures r.Some? ==> r.value != 0
    ensures r.Some? ==> exists i :: 0 <= i < |cols| && Upper(cols[i]) in cmu && mode(CleanedAt(df, cmu, cols[i])) == r
    ensures r.None? <==> forall i :: 0 <= i < |cols| && Upper(cols[i]) in cmu ==> mode(CleanedAt(df, cmu, cols[i])) in {None, Some(0)}
  {
    if cols == [] then None
    else if Upper(cols[0]) in cmu && mode(CleanedAt(df, cmu, cols[0])).Some? && mode(CleanedAt(df, cmu, cols[0])).value != 0 then
      mode(CleanedAt(df, cmu, cols[0]))
    else
      var r := FirstYearMode(df, cmu, mode, cols[1..]);
      assert forall i :: 1 <= i < |cols| ==> cols[i] == cols[1..][i - 1];
      r
  }

  /**
   * The year fallback as evidently intended: the name's year, else the
   * first of SVYYR, CYEAR, PUFSVYYR that is present and has a non-zero
   * mode, else 2020.  The year is never 0 unless the name says so.
   */
  function CorrectedYear(fileYear: Option<int>, df: Frame, cmu: map<string, nat>, mode: ModeOracle): (r: int)
    requires IndexesInto(cmu, df)
    ensures fileYear.Some? ==> r == fileYear.value
    ensures fileYear.None? ==> r != 0
    ensures fileYear.None? && r != 2020 ==>
      exists i :: 0 <= i < |YearFallbackColumns| && Upper(YearFallbackColumns[i]) in cmu &&
        mode(CleanedAt(df, cmu, YearFallbackColumns[i])) == Some(r)
  {
    if fileYear.Some? then fileYear.value
    else FirstYearMode(df, cmu, mode, YearFallbackColumns).GetOr(2020)
  }

  /**
   * The year fallback loop of process_file: the name's year if there is
   * one; otherwise each present column of SVYYR, CYEAR, PUFSVYYR in turn
   * replaces the year with its mode (when it has one) and the loop stops
   * at the first non-zero year; 2020 only when no mode was found at all.
   */
  method InferYear(fileYear: Option<int>, df: Frame, cmu: map<string, nat>, mode: ModeOracle) returns (year: int)
    requires IndexesInto(cmu, df)
    ensures year == InferYearAsWritten(fileYear, df, cmu, mode)
    ensures fileYear.Some? ==> year == fileYear.value
    ensures (forall i :: 0 <= i < |YearFallbackColumns| && Upper(YearFallbackColumns[i]) in cmu ==>
              mode(CleanedAt(df, cmu, YearFallbackColumns[i])) != Some(0)) ==>
            year == CorrectedYear(fileYear, df, cmu, mode)
  {
    if forall i :: 0 <= i < |YearFallbackColumns| && Upper(YearFallbackColumns[i]) in cmu ==>
         mode(CleanedAt(df, cmu, YearFallbackColumns[i])) != Some(0) {
      InferYearAgrees(fileYear, df, cmu, mode);
    }
    if fileYear.Some? {
      return fileYear.value;
    }
    var cols := YearFallbackColumns;
    var found: Option<int> := None;
    var i := 0;
    while i < |cols|
      invariant 0 <= i <= |cols|
      invariant YearLoopAsWritten(df, cmu, mode, cols, None) == YearLoopAsWritten(df, cmu, mode, cols[i..], found)
    {
      var key := Upper(cols[i]);
      YearLoopStep(df, cmu, mode, cols, i, found);
      if key in cmu {
        var m := mode(CleanColumn(df[cmu[key]].col.cells));
        if m.Some? {
          found := m;
        }
        if found.Some? && found.value != 0 {
          return found.value;
        }
      }
      i := i + 1;
    }
    return found.GetOr(2020);
  }

  /** One turn of the fallback loop as written. */
  lemma YearLoopStep(df: Frame, cmu: map<string, nat>, mode: ModeOracle, cols: seq<string>, i: nat, year: Option<int>)
    requires IndexesInto(cmu, df) && i < |cols|
    ensures Upper(cols[i]) !in cmu ==>
      YearLoopAsWritten(df, cmu, mode, cols[i..], year) == YearLoopAsWritten(df, cmu, mode, cols[i + 1..], year)
    ensures Upper(cols[i]) in cmu ==>
      var y := if mode(CleanedAt(df, cmu, cols[i])).Some? then mode(CleanedAt(df, cmu, cols[i])) else year;
      YearLoopAsWritten(df, cmu, mode, cols[i..], year) ==
        if y.Some? && y.value != 0 then y else YearLoopAsWritten(df, cmu, mode, cols[i + 1..], y)
  {
    assert cols[i..][0] == cols[i] && cols[i..][1..] == cols[i + 1..];
  }

  /**
   * As written, a release whose name has no year and whose SVYYR column's
   * mode is 0 is processed as year 0, not under the default 2020.
   */
  lemma ZeroModeYearAsWritten()
    ensures var df := [NamedColumn("SVYYR", Column(false, [Some(Num(0))]))];
      var cmu := ColMapUpper(df);
      var mode: ModeOracle := s => Some(0);
      InferYearAsWritten(None, df, cmu, mode) == 0 && CorrectedYear(None, df, cmu, mode) == 2020
  {
    var df := [NamedColumn("SVYYR", Column(false, [Some(Num(0))]))];
    var cmu := ColMapUpper(df);
    var mode: ModeOracle := s => Some(0);
    ColMapHasHeader(df, 0);
    assert Upper(YearFallbackColumns[0]) in cmu;
    AllZeroModes(df, cmu, mode, YearFallbackColumns, None);
  }

  /**
   * When every mode is 0, the loop as written ends with year 0 as soon as
   * one fallback column is present, while the corrected search finds nothing.
   */
  lemma {:induction false} AllZeroModes(df: Frame, cmu: map<string, nat>, mode: ModeOracle, cols: seq<string>, year: Option<int>)
    requires IndexesInto(cmu, df)
    requires forall s :: mode(s) == Some(0)
    requires year == Some(0) || exists i :: 0 <= i < |cols| && Upper(cols[i]) in cmu
    ensures YearLoopAsWritten(df, cmu, mode, cols, year) == Some(0)
    ensures FirstYearMode(df, cmu, mode, cols).None?
  {
    if cols != [] {
      var y := if Upper(cols[0]) in cmu then Some(0) else year;
      if y != Some(0) {
        var i :| 0 <= i < |cols| && Upper(cols[i]) in cmu;
        assert cols[1..][i - 1] == cols[i];
      }
      AllZeroModes(df, cmu, mode, cols[1..], y);
    }
  }

  /** When no consulted mode is 0, the loop as written and the corrected one agree. */
  lemma {:induction false} YearLoopAgrees(df: Frame, cmu: map<string, nat>, mode: ModeOracle, cols: seq<string>)
    requires IndexesInto(cmu, df)
    requires forall i :: 0 <= i < |cols| && Upper(cols[i]) in cmu ==> mode(CleanedAt(df, cmu, cols[i])) != Some(0)
    ensures YearLoopAsWritten(df, cmu, mode, cols, None) == FirstYearMode(df, cmu, mode, cols)
  {
    if cols != [] {
      assert forall i :: 1 <= i < |cols| ==> cols[i] == cols[1..][i - 1];
      YearLoopAgrees(df, cmu, mode, cols[1..]);
    }
  }

  lemma InferYearAgrees(fileYear: Option<int>, df: Frame, cmu: map<string, nat>, mode: ModeOracle)
    requires IndexesInto(cmu, df)
    requires forall i :: 0 <= i < |YearFallbackColumns| && Upper(YearFallbackColumns[i]) in cmu ==>
      mode(CleanedAt(df, cmu, YearFallbackColumns[i])) != Some(0)
    ensures InferYearAsWritten(fileYear, df, cmu, mode) == CorrectedYear(fileYear, df, cmu, mode)
  {
    YearLoopAgrees(df, cmu, mode, YearFallbackColumns);
  }

  // ---------------------------------------------------------------------
  // Per-field records
  // ---------------------------------------------------------------------

  datatype Status = Mapped | MappedTranslated | Unmapped

  /** One entry of col_reports. */
  datatype FieldReport = FieldReport(
    status: Status,
    source: Option<string>,
    translated: bool,
    rawNonNull: nat,
    finalNonNull: nat,
    nullCount: int,
    retention: real,
    nullPct: real,
    translationLoss: int,
    candidates: Option<seq<string>>)

  /** A translator applied to every cleaned cell of a column. */
  function TranslateColumn(k: Kind, clean: seq<Option<int>>, year: int): (r: seq<Option<int>>)
    ensures |r| == |clean|
    ensures forall i :: 0 <= i < |clean| ==> r[i] == Translate(k, OfCode(clean[i]), year)
  {
    if clean == [] then [] else TranslateColumn(k, clean[..|clean| - 1], year) + [Translate(k, OfCode(clean[|clean| - 1]), year)]
  }

  /** A translator never turns a missing cleaned value into a present one. */
  lemma TranslateNoGain(k: Kind, clean: seq<Option<int>>, year: int)
    ensures forall i :: 0 <= i < |clean| ==> TranslateColumn(k, clean, year)[i].Some? ==> clean[i].Some?
  {
    forall i | 0 <= i < |clean| && TranslateColumn(k, clean, year)[i].Some?
      ensures clean[i].Some?
    {
      assert Translate(k, OfCode(clean[i]), year).Some?;
    }
  }

  function Repeat(v: Option<int>, n: nat): (r: seq<Option<int>>)
    ensures |r| == n && forall i :: 0 <= i < n ==> r[i] == v
  {
    if n == 0 then [] else Repeat(v, n - 1) + [v]
  }

  /** TRANSLATION_MAP.get(target): the translator a field goes through, if any. */
  function KindOf(tmap: map<string, Kind>, target: string): (r: Option<Kind>)
    ensures r.Some? <==> target in tmap
    ensures r.Some? ==> r.value == tmap[target]
  {
    if target in tmap then Some(tmap[target]) else None
  }

  /** The values a mapped field takes: the cleaned column, translated when the field has a translator. */
  function FieldValues(col: Column, kind: Option<Kind>, year: int): (r: seq<Option<int>>)
    ensures |r| == |col.cells|
  {
    match kind
    case None => CleanColumn(col.cells)
    case Some(k) => TranslateColumn(k, CleanColumn(col.cells), year)
  }

  /** The report of a field read from `src`. */
  function MappedReport(col: Column, src: string, kind: Option<Kind>, year: int, nRows: nat): FieldReport {
    var final := CountSome(FieldValues(col, kind, year));
    FieldReport(if kind.Some? then MappedTranslated else Mapped, Some(src), kind.Some?,
                CountSome(col.cells), final, nRows - final, Percent(final, nRows), Percent(nRows - final, nRows),
                if kind.Some? then CountSome(CleanColumn(col.cells)) - final else 0, None)
  }

  /** The report of a field none of whose variants is usable. */
  function UnmappedReport(vs: seq<string>, nRows: nat): FieldReport {
    FieldReport(Unmapped, None, false, 0, 0, nRows, 0.0, 100.0, 0, Some(vs))
  }

  /** The output column and the report of one target field, before year and month are forced. */
  function FieldOutcome(df: Frame, cmu: map<string, nat>, prio: Priority, tmap: map<string, Kind>,
                        target: string, year: int, nRows: nat): (seq<Option<int>>, FieldReport)
    requires IndexesInto(cmu, df)
  {
    match Resolve(df, cmu, Variants(prio, target))
    case None => (Repeat(None, nRows), UnmappedReport(Variants(prio, target), nRows))
    case Some((col, src)) =>
      (FieldValues(col, KindOf(tmap, target), year), MappedReport(col, src, KindOf(tmap, target), year, nRows))
  }

  /**
   * The diagnostics of a mapped column: it has a value, the counts only
   * shrink from raw to clean to final, the translation loss is exactly the
   * number of cleaned values the translator dropped, and the null count and
   * retention complete the row count.
   */
  lemma MappedReportCounts(col: Column, src: string, kind: Option<Kind>, year: int, nRows: nat)
    requires HasContent(col) && |col.cells| == nRows
    ensures var rep := MappedReport(col, src, kind, year, nRows);
      var values := FieldValues(col, kind, year);
      var clean := CleanColumn(col.cells);
      |values| == nRows && rep.finalNonNull == CountSome(values) &&
      1 <= rep.rawNonNull <= nRows && rep.finalNonNull <= CountSome(clean) <= rep.rawNonNull &&
      rep.translationLoss == (if kind.Some? then LostCount(values, clean) else 0) &&
      rep.nullCount == nRows - rep.finalNonNull >= 0
  {
    var clean := CleanColumn(col.cells);
    var values := FieldValues(col, kind, year);
    ContentHasValue(col);
    CleanNoMore(col.cells);
    if kind.Some? {
      TranslateNoGain(kind.value, clean, year);
      CountSomeMono(values, clean);
      CountSomeLoss(values, clean);
    }
  }

  /** The retention and null percentages of a mapped column are shares of the row count that add up to 100. */
  lemma MappedReportShares(col: Column, src: string, kind: Option<Kind>, year: int, nRows: nat)
    requires HasContent(col) && |col.cells| == nRows
    ensures var rep := MappedReport(col, src, kind, year, nRows);
      0.0 <= rep.retention <= 100.0 && rep.retention + rep.nullPct == 100.0
  {
    var values := FieldValues(col, kind, year);
    var final := CountSome(values);
    ContentHasValue(col);
    assert final <= |values| && |values| == nRows && nRows > 0;
    MappedReportPercents(col, src, kind, year, nRows, final);
    ReportShares(MappedReport(col, src, kind, year, nRows), final, nRows);
  }

  /** A report whose percentages are those of a final count out of a positive row count has shares that add up to 100. */
  lemma ReportShares(rep: FieldReport, final: nat, nRows: nat)
    requires 0 < nRows && final <= nRows
    requires rep.retention == Percent(final, nRows) && rep.nullPct == Percent(nRows - final, nRows)
    ensures 0.0 <= rep.retention <= 100.0 && rep.retention + rep.nullPct == 100.0
  {
    PercentComplement(final, nRows);
  }

  /** The percentages of a mapped column's report are those of its final count. */
  lemma MappedReportPercents(col: Column, src: string, kind: Option<Kind>, year: int, nRows: nat, final: nat)
    requires final == CountSome(FieldValues(col, kind, year))
    ensures MappedReport(col, src, kind, year, nRows).retention == Percent(final, nRows)
    ensures MappedReport(col, src, kind, year, nRows).nullPct == Percent(nRows - final, nRows)
  {
  }

  /** A mapped field of the release step reads the resolved column, and its report satisfies the count identities. */
  lemma MappedFieldCounts(df: Frame, cmu: map<string, nat>, prio: Priority, tmap: map<string, Kind>,
                          target: string, year: int, nRows: nat)
    requires IndexesInto(cmu, df) && Rectangular(df, nRows)
    requires Resolve(df, cmu, Variants(prio, target)).Some?
    ensures var (col, src) := Resolve(df, cmu, Variants(prio, target)).value;
      var rep := FieldOutcome(df, cmu, prio, tmap, target, year, nRows).1;
      rep.status != Unmapped && rep.source == Some(src) && rep.translated == (target in tmap) &&
      1 <= rep.rawNonNull <= nRows && rep.finalNonNull <= rep.rawNonNull &&
      rep.finalNonNull == CountSome(FieldOutcome(df, cmu, prio, tmap, target, year, nRows).0) &&
      rep.nullCount == nRows - rep.finalNonNull >= 0 &&
      rep.translationLoss >= 0 &&
      rep.retention + rep.nullPct == 100.0
  {
    var (col, src) := Resolve(df, cmu, Variants(prio, target)).value;
    var k := FirstUsable(df, cmu, Variants(prio, target)).value;
    assert Usable(df, cmu, Variants(prio, target)[k]);
    MappedReportCounts(col, src, KindOf(tmap, target), year, nRows);
    MappedReportShares(col, src, KindOf(tmap, target), year, nRows);
  }

  /** An unmapped field reports no values, every row null, and the variants it searched. */
  lemma UnmappedFieldCounts(df: Frame, cmu: map<string, nat>, prio: Priority, tmap: map<string, Kind>,
                            target: string, year: int, nRows: nat)
    requires IndexesInto(cmu, df)
    requires forall v :: v in Variants(prio, target) ==> !Usable(df, cmu, v)
    ensures var (values, rep) := FieldOutcome(df, cmu, prio, tmap, target, year, nRows);
      rep.status == Unmapped && rep.source.None? && !rep.translated &&
      rep.finalNonNull == 0 == CountSome(values) && |values| == nRows && rep.nullCount == nRows &&
      rep.candidates == Some(Variants(prio, target))
  {
    var values := Repeat(None, nRows);
    CountSomeZero(values);
  }

  // ---------------------------------------------------------------------
  // The release step
  // ---------------------------------------------------------------------

  /** One release's report (file_report). */
  datatype FileReport = FileReport(
    file: string,
    year: int,
    month: Option<nat>,
    rows: nat,
    sourceColumns: nat,
    mappedCount: nat,
    unmappedCount: nat,
    translatedCount: nat,
    mappedPct: real,
    overallRetention: real,
    unmappedColumns: seq<string>,
    columns: map<string, FieldReport>)

  /** The output column of a field once the year and month fields are forced. */
  function Locked(target: string, values: seq<Option<int>>, year: int, month: Option<nat>, nRows: nat): seq<Option<int>> {
    if target == YearField then Repeat(Some(year), nRows)
    else if target == MonthField && month.Some? then Repeat(Some(month.value), nRows)
    else values
  }

  /**
   * Only the year field, and the month field when a month was found, are
   * overwritten, and those then have a value on every row, whatever their
   * field report (taken before the lock) says.
   */
  lemma LockedCounts(target: string, values: seq<Option<int>>, year: int, month: Option<nat>, nRows: nat)
    ensures target != YearField && (target != MonthField || month.None?) ==> Locked(target, values, year, month, nRows) == values
    ensures target == YearField ==> Locked(target, values, year, month, nRows) == Repeat(Some(year), nRows)
    ensures target == YearField || (target == MonthField && month.Some?) ==>
      CountSome(Locked(target, values, year, month, nRows)) == nRows
  {
    if target == YearField || (target == MonthField && month.Some?) {
      CountSomeAll(Locked(target, values, year, month, nRows));
    }
  }

  /** The three field lists the totals are taken from. */
  datatype Tally = MappedFields | UnmappedFields | TranslatedFields

  predicate Counts(t: Tally, r: FieldReport) {
    match t
    case MappedFields => r.status != Unmapped
    case UnmappedFields => r.status == Unmapped
    case TranslatedFields => r.translated
  }

  /** The schema fields whose report falls under `t`, in schema order. */
  function Select(schema: seq<string>, reports: map<string, FieldReport>, t: Tally): (r: seq<string>)
    requires forall f :: f in schema ==> f in reports
    ensures |r| <= |schema|
    ensures forall f :: f in r <==> f in schema && Counts(t, reports[f])
  {
    if schema == [] then []
    else
      var last := schema[|schema| - 1];
      Select(schema[..|schema| - 1], reports, t) + (if Counts(t, reports[last]) then [last] else [])
  }

  /** The sum of final non-null counts over the schema. */
  function NonNullCells(schema: seq<string>, reports: map<string, FieldReport>): nat
    requires forall f :: f in schema ==> f in reports
  {
    if schema == [] then 0 else NonNullCells(schema[..|schema| - 1], reports) + reports[schema[|schema| - 1]].finalNonNull
  }

  /** Mapped and unmapped fields partition the schema. */
  lemma {:induction false} SelectPartition(schema: seq<string>, reports: map<string, FieldReport>)
    requires forall f :: f in schema ==> f in reports
    ensures |Select(schema, reports, MappedFields)| + |Select(schema, reports, UnmappedFields)| == |schema|
  {
    if schema != [] {
      SelectPartition(schema[..|schema| - 1], reports);
    }
  }

  /** A translated field is a mapped one. */
  lemma {:induction false} TranslatedAreMapped(schema: seq<string>, reports: map<string, FieldReport>)
    requires forall f :: f in schema ==> f in reports && (reports[f].translated ==> reports[f].status != Unmapped)
    ensures |Select(schema, reports, TranslatedFields)| <= |Select(schema, reports, MappedFields)|
  {
    if schema != [] {
      TranslatedAreMapped(schema[..|schema| - 1], reports);
    }
  }

  /** No field reports more non-null cells than the table has rows, so the sum is at most rows times fields. */
  lemma {:induction false} NonNullBound(schema: seq<string>, reports: map<string, FieldReport>, nRows: nat)
    requires forall f :: f in schema ==> f in reports && reports[f].finalNonNull <= nRows
    ensures NonNullCells(schema, reports) <= nRows * |schema|
  {
    if schema != [] {
      NonNullBound(schema[..|schema| - 1], reports, nRows);
    }
  }

  /** The release's report from its field reports (the derived totals and file_report). */
  function Summarize(file: string, year: int, month: Option<nat>, nRows: nat, sourceColumns: nat,
                     schema: seq<string>, reports: map<string, FieldReport>): FileReport
    requires forall f :: f in schema ==> f in reports
  {
    var unmapped := Select(schema, reports, UnmappedFields);
    FileReport(file, year, month, nRows, sourceColumns,
               |Select(schema, reports, MappedFields)|, |unmapped|, |Select(schema, reports, TranslatedFields)|,
               Percent(|Select(schema, reports, MappedFields)|, |schema|),
               Percent(NonNullCells(schema, reports), nRows * |schema|), unmapped, reports)
  }

  /**
   * The totals of a release report: every field is counted once as mapped
   * or unmapped, translated fields are among the mapped ones, and the mapped
   * share and overall retention are percentages.
   */
  lemma SummaryTotals(file: string, year: int, month: Option<nat>, nRows: nat, sourceColumns: nat,
                      schema: seq<string>, reports: map<string, FieldReport>)
    requires forall f :: f in schema ==> f in reports && reports[f].finalNonNull <= nRows
    requires forall f :: f in schema ==> reports[f].translated ==> reports[f].status != Unmapped
    ensures var r := Summarize(file, year, month, nRows, sourceColumns, schema, reports);
      r.mappedCount + r.unmappedCount == |schema| &&
      r.translatedCount <= r.mappedCount &&
      r.unmappedCount == |r.unmappedColumns| &&
      (forall f :: f in r.unmappedColumns <==> f in schema && reports[f].status == Unmapped) &&
      0.0 <= r.mappedPct <= 100.0 &&
      0.0 <= r.overallRetention <= 100.0
  {
    var mapped := Select(schema, reports, MappedFields);
    var unmapped := Select(schema, reports, UnmappedFields);
    var cells := NonNullCells(schema, reports);
    SelectPartition(schema, reports);
    TranslatedAreMapped(schema, reports);
    NonNullBound(schema, reports, nRows);
    var r := Summarize(file, year, month, nRows, sourceColumns, schema, reports);
    assert r.mappedCount == |mapped| && r.unmappedCount == |unmapped| && r.unmappedColumns == unmapped;
    assert r.mappedPct == Percent(|mapped|, |schema|);
    assert r.overallRetention == Percent(cells, nRows * |schema|);
    PercentBounds(|mapped|, |schema|);
    PercentBounds(cells, nRows * |schema|);
  }

  /** Every field report of the release step keeps its final count within the rows, and only mapped fields are translated. */
  lemma FieldReportsSound(df: Frame, cmu: map<string, nat>, prio: Priority, tmap: map<string, Kind>,
                          target: string, year: int, nRows: nat)
    requires IndexesInto(cmu, df) && Rectangular(df, nRows)
    ensures var rep := FieldOutcome(df, cmu, prio, tmap, target, year, nRows).1;
      rep.finalNonNull <= nRows && (rep.translated ==> rep.status != Unmapped)
  {
    if Resolve(df, cmu, Variants(prio, target)).Some? {
      MappedFieldCounts(df, cmu, prio, tmap, target, year, nRows);
    }
  }

  /** One field of the mapping loop: its column through get_column, the cleaner and its translator, and its report. */
  method MapField(df: Frame, cmu: map<string, nat>, nRows: nat, prio: Priority, tmap: map<string, Kind>,
                  target: string, year: int)
    returns (values: seq<Option<int>>, rep: FieldReport)
    requires IndexesInto(cmu, df)
    ensures (values, rep) == FieldOutcome(df, cmu, prio, tmap, target, year, nRows)
    ensures (values, rep) == FieldOutcomes(df, cmu, prio, tmap, year, nRows)(target)
  {
    var col, src := GetColumn(df, cmu, prio, target);
    if col.Some? {
      var kind := if target in tmap then Some(tmap[target]) else None;
      values := FieldValues(col.value, kind, year);
      rep := MappedReport(col.value, src.value, kind, year, nRows);
    } else {
      values := Repeat(None, nRows);
      rep := UnmappedReport(Variants(prio, target), nRows);
    }
  }

  /** The mapping loop of process_file: every schema field in order through get_column, the cleaner and its translator. */
  method MapFields(df: Frame, cmu: map<string, nat>, nRows: nat, prio: Priority, schema: seq<string>,
                   tmap: map<string, Kind>, year: int)
    returns (out: seq<seq<Option<int>>>, reports: map<string, FieldReport>)
    requires IndexesInto(cmu, df)
    ensures out == Outputs(FieldOutcomes(df, cmu, prio, tmap, year, nRows), schema)
    ensures reports == ReportsOf(FieldOutcomes(df, cmu, prio, tmap, year, nRows), schema)
  {
    ghost var outcome := FieldOutcomes(df, cmu, prio, tmap, year, nRows);
    out := [];
    reports := map[];
    var i := 0;
    while i < |schema|
      invariant 0 <= i <= |schema|
      invariant out == Outputs(outcome, schema[..i])
      invariant reports == ReportsOf(outcome, schema[..i])
    {
      var target := schema[i];
      var values, rep := MapField(df, cmu, nRows, prio, tmap, target, year);
      OutcomeStep(outcome, schema, i, out, reports, values, rep);
      out := out + [values];
      reports := reports[target := rep];
      i := i + 1;
    }
    Seqs.WholePrefix(schema, i);
  }

  /** The outcome of every target field, as a function of the field's name. */
  function FieldOutcomes(df: Frame, cmu: map<string, nat>, prio: Priority, tmap: map<string, Kind>,
                         year: int, nRows: nat): string -> (seq<Option<int>>, FieldReport)
    requires IndexesInto(cmu, df)
  {
    t => FieldOutcome(df, cmu, prio, tmap, t, year, nRows)
  }

  /** One more field's outcome extends the outputs and the reports. */
  lemma OutcomeStep(outcome: string -> (seq<Option<int>>, FieldReport), ts: seq<string>, i: nat,
                    out: seq<seq<Option<int>>>, reports: map<string, FieldReport>,
                    values: seq<Option<int>>, rep: FieldReport)
    requires i < |ts| && (values, rep) == outcome(ts[i])
    requires out == Outputs(outcome, ts[..i]) && reports == ReportsOf(outcome, ts[..i])
    ensures out + [values] == Outputs(outcome, ts[..i + 1])
    ensures reports[ts[i] := rep] == ReportsOf(outcome, ts[..i + 1])
  {
    Seqs.PrefixStep(ts, i);
  }

  /** The output columns of the fields, in order, for a per-field outcome. */
  function Outputs(outcome: string -> (seq<Option<int>>, FieldReport), ts: seq<string>): (r: seq<seq<Option<int>>>)
    ensures |r| == |ts|
    ensures forall i :: 0 <= i < |ts| ==> r[i] == outcome(ts[i]).0
  {
    if ts == [] then []
    else
      var front := ts[..|ts| - 1];
      assert forall i :: 0 <= i < |front| ==> front[i] == ts[i];
      Outputs(outcome, front) + [outcome(ts[|ts| - 1]).0]
  }

  /** The report of every field, keyed by its name, for a per-field outcome. */
  function ReportsOf(outcome: string -> (seq<Option<int>>, FieldReport), ts: seq<string>): (r: map<string, FieldReport>)
    ensures forall f :: f in r <==> f in ts
    ensures forall f :: f in r ==> r[f] == outcome(f).1
  {
    if ts == [] then map[]
    else
      var front := ts[..|ts| - 1];
      var last := ts[|ts| - 1];
      assert ts == front + [last];
      ReportsOf(outcome, front)[last := outcome(last).1]
  }

  /** Lock year/month: PUFSVYYR becomes the year on every row, and PUFSVYMO the month when there is one. */
  method LockYearMonth(schema: seq<string>, cols: seq<seq<Option<int>>>, year: int, month: Option<nat>, nRows: nat)
    returns (out: seq<seq<Option<int>>>)
    requires |cols| == |schema|
    ensures |out| == |schema|
    ensures forall i :: 0 <= i < |schema| ==> out[i] == Locked(schema[i], cols[i], year, month, nRows)
  {
    out := cols;
    var j := 0;
    while j < |out|
      invariant 0 <= j <= |out| == |schema|
      invariant forall k :: 0 <= k < j ==> out[k] == Locked(schema[k], cols[k], year, month, nRows)
      invariant forall k :: j <= k < |out| ==> out[k] == cols[k]
    {
      if schema[j] == YearField {
        out := out[j := Repeat(Some(year), nRows)];
      } else if schema[j] == MonthField && month.Some? {
        out := out[j := Repeat(Some(month.value), nRows)];
      }
      j := j + 1;
    }
  }

  /**
   * process_file after the table is read: the year and month come from the
   * release name (with the year fallback), each schema field is mapped in
   * order, PUFSVYYR is then set to the year on every row and PUFSVYMO to the
   * month when one was found, and the totals are taken over the schema.
   */
  method ProcessFile(file: string, stem: string, df: Frame, nRows: nat, prio: Priority, schema: seq<string>,
                     tmap: map<string, Kind>, mode: ModeOracle)
    returns (out: seq<seq<Option<int>>>, report: FileReport)
    requires Rectangular(df, nRows)
    ensures var cmu := ColMapUpper(df);
      var (fileYear, month) := ReleaseNames.ExtractYearMonth(stem);
      var year := InferYearAsWritten(fileYear, df, cmu, mode);
      |out| == |schema| &&
      (forall i :: 0 <= i < |schema| ==>
        out[i] == Locked(schema[i], FieldOutcome(df, cmu, prio, tmap, schema[i], year, nRows).0, year, month, nRows)) &&
      (forall f :: f in report.columns <==> f in schema) &&
      (forall f :: f in schema ==> report.columns[f] == FieldOutcome(df, cmu, prio, tmap, f, year, nRows).1) &&
      report == Summarize(file, year, month, nRows, |df|, schema, report.columns)
    ensures report.mappedCount + report.unmappedCount == |schema|
    ensures 0.0 <= report.overallRetention <= 100.0
  {
    var cmu := ColMapUpper(df);
    var (fileYear, month) := ReleaseNames.ExtractYearMonth(stem);
    var year := InferYear(fileYear, df, cmu, mode);
    var cols, reports := MapFields(df, cmu, nRows, prio, schema, tmap, year);
    out := LockYearMonth(schema, cols, year, month, nRows);
    forall f | f in schema
      ensures reports[f].finalNonNull <= nRows && (reports[f].translated ==> reports[f].status != Unmapped)
    {
      FieldReportsSound(df, cmu, prio, tmap, f, year, nRows);
    }
    report := Summarize(file, year, month, nRows, |df|, schema, reports);
    SummaryTotals(file, year, month, nRows, |df|, schema, reports);
  }
}
