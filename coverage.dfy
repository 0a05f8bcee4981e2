/**
 * Cross-release coverage: for each output field, how many releases left it
 * unmapped, how much of it survived where it was mapped, and which source
 * columns supplied it; and the coverage matrix of releases by fields.
 */
module Coverage {
  import opened Wrappers
  import opened HarmonizerV8
  import opened Cells
  import Reals
  import Seqs

  // ---------------------------------------------------------------------
  // What one release says about one field
  // ---------------------------------------------------------------------

  /** The release left the field unmapped (a field the release does not report counts as mapped). */
  predicate UnmappedIn(rep: FileReport, col: string) {
    col in rep.columns && rep.columns[col].status == Unmapped
  }

  /** info.get('retention_pct', 0.0). */
  function RetentionIn(rep: FileReport, col: string): real {
    if col in rep.columns then rep.columns[col].retention else 0.0
  }

  /** info.get('source_col') when it is truthy: present and non-empty. */
  function SourceIn(rep: FileReport, col: string): (r: Option<string>)
    ensures r.Some? ==> r.value != [] && col in rep.columns && rep.columns[col].source == r
  {
    if col in rep.columns && rep.columns[col].source.Some? && rep.columns[col].source.value != [] then rep.columns[col].source
    else None
  }

  // ---------------------------------------------------------------------
  // The lists build_column_summary collects
  // ---------------------------------------------------------------------

  /** The files that left the field unmapped, in report order. */
  function UnmappedFiles(reports: seq<FileReport>, col: string): (r: seq<string>)
    ensures |r| <= |reports|
    ensures forall f :: f in r <==> exists i :: 0 <= i < |reports| && reports[i].file == f && UnmappedIn(reports[i], col)
  {
    if reports == [] then []
    else
      var last := reports[|reports| - 1];
      var front := UnmappedFiles(reports[..|reports| - 1], col);
      assert forall i :: 0 <= i < |reports| - 1 ==> reports[..|reports| - 1][i] == reports[i];
      front + (if UnmappedIn(last, col) then [last.file] else [])
  }

  /** The retention of the field in every release that mapped it, in report order. */
  function Retentions(reports: seq<FileReport>, col: string): (r: seq<real>)
    ensures |r| + |UnmappedFiles(reports, col)| == |reports|
    ensures forall x :: x in r ==> exists i :: 0 <= i < |reports| && !UnmappedIn(reports[i], col) && RetentionIn(reports[i], col) == x
  {
    if reports == [] then []
    else
      var last := reports[|reports| - 1];
      var front := Retentions(reports[..|reports| - 1], col);
      assert forall i :: 0 <= i < |reports| - 1 ==> reports[..|reports| - 1][i] == reports[i];
      front + (if UnmappedIn(last, col) then [] else [RetentionIn(last, col)])
  }

  /** How often each source column supplied the field, among releases that mapped it. */
  function Sources(reports: seq<FileReport>, col: string): (m: multiset<string>)
    ensures |m| <= |Retentions(reports, col)|
    ensures [] !in m
  {
    if reports == [] then multiset{}
    else
      var last := reports[|reports| - 1];
      var front := Sources(reports[..|reports| - 1], col);
      if !UnmappedIn(last, col) && SourceIn(last, col).Some? then front + multiset{SourceIn(last, col).value} else front
  }

  // ---------------------------------------------------------------------
  // sum, min and max of the retentions
  // ---------------------------------------------------------------------

  function Sum(xs: seq<real>): real {
    if xs == [] then 0.0 else Sum(xs[..|xs| - 1]) + xs[|xs| - 1]
  }

  function Min(xs: seq<real>): (r: real)
    requires xs != []
    ensures r in xs && forall i :: 0 <= i < |xs| ==> r <= xs[i]
  {
    if |xs| == 1 then xs[0]
    else
      var m := Min(xs[..|xs| - 1]);
      assert forall i :: 0 <= i < |xs| - 1 ==> xs[..|xs| - 1][i] == xs[i];
      if xs[|xs| - 1] < m then xs[|xs| - 1] else m
  }

  function Max(xs: seq<real>): (r: real)
    requires xs != []
    ensures r in xs && forall i :: 0 <= i < |xs| ==> xs[i] <= r
  {
    if |xs| == 1 then xs[0]
    else
      var m := Max(xs[..|xs| - 1]);
      assert forall i :: 0 <= i < |xs| - 1 ==> xs[..|xs| - 1][i] == xs[i];
      if xs[|xs| - 1] > m then xs[|xs| - 1] else m
  }

  /** A sum lies between the count times any lower bound and the count times any upper bound. */
  lemma {:induction false} SumBounds(xs: seq<real>, lo: real, hi: real)
    requires forall i :: 0 <= i < |xs| ==> lo <= xs[i] <= hi
    ensures (|xs| as real) * lo <= Sum(xs) <= (|xs| as real) * hi
  {
    if xs != [] {
      var front := xs[..|xs| - 1];
      assert forall i :: 0 <= i < |front| ==> front[i] == xs[i];
      SumBounds(front, lo, hi);
      var n := |front| as real;
      assert (|xs| as real) * lo == n * lo + lo;
      assert (|xs| as real) * hi == n * hi + hi;
    }
  }

  function Average(xs: seq<real>): real
    requires xs != []
  {
    Sum(xs) / (|xs| as real)
  }

  /** The average of a non-empty list lies between its minimum and its maximum. */
  lemma AverageBetween(xs: seq<real>)
    requires xs != []
    ensures Min(xs) <= Average(xs) <= Max(xs)
  {
    var n := |xs| as real;
    var lo, hi, total := Min(xs), Max(xs), Sum(xs);
    SumBounds(xs, lo, hi);
    Reals.DivMonotone(n * lo, total, n);
    Reals.DivMonotone(total, n * hi, n);
    Reals.MulDiv(lo, n);
    Reals.MulDiv(hi, n);
  }

  // ---------------------------------------------------------------------
  // The per-field summary
  // ---------------------------------------------------------------------

  /** One entry of build_column_summary's result. */
  datatype ColumnSummary = ColumnSummary(
    filesTotal: nat,
    filesUnmapped: nat,
    filesMapped: int,
    unmappedPct: real,
    avgRetention: Option<real>,
    minRetention: Option<real>,
    maxRetention: Option<real>,
    sources: multiset<string>,
    unmappedIn: seq<string>)

  /** The summary of one field over the releases' reports. */
  function SummaryOf(reports: seq<FileReport>, col: string): ColumnSummary {
    var unmapped := UnmappedFiles(reports, col);
    var vals := Retentions(reports, col);
    ColumnSummary(|reports|, |unmapped|, |reports| - |unmapped|, Percent(|unmapped|, |reports|),
                  if vals == [] then None else Some(Average(vals)),
                  if vals == [] then None else Some(Min(vals)),
                  if vals == [] then None else Some(Max(vals)),
                  Sources(reports, col), unmapped)
  }

  /**
   * The totals of a field summary: every release is counted once as mapped
   * or unmapped, the retention figures exist exactly when some release
   * mapped the field and then satisfy min <= avg <= max, and no release
   * contributes more than one source.
   */
  lemma SummaryTotals(reports: seq<FileReport>, col: string)
    ensures var s := SummaryOf(reports, col);
      s.filesMapped + s.filesUnmapped == s.filesTotal == |reports| && s.filesMapped >= 0 &&
      (s.avgRetention.Some? <==> s.filesMapped > 0) &&
      s.avgRetention.Some? == s.minRetention.Some? == s.maxRetention.Some? &&
      (s.avgRetention.Some? ==> s.minRetention.value <= s.avgRetention.value <= s.maxRetention.value) &&
      |s.sources| <= s.filesMapped
  {
    var vals := Retentions(reports, col);
    if vals != [] {
      AverageBetween(vals);
    }
  }

  /** When every mapped release kept the field's retention within 0..100, so do the summary's figures. */
  lemma SummaryRetentionRange(reports: seq<FileReport>, col: string)
    requires forall i :: 0 <= i < |reports| && !UnmappedIn(reports[i], col) ==> 0.0 <= RetentionIn(reports[i], col) <= 100.0
    ensures var s := SummaryOf(reports, col);
      s.avgRetention.Some? ==>
        (0.0 <= s.minRetention.value && s.maxRetention.value <= 100.0 && 0.0 <= s.avgRetention.value <= 100.0)
  {
    var vals := Retentions(reports, col);
    if vals != [] {
      assert Min(vals) in vals && Max(vals) in vals;
      AverageBetween(vals);
    }
  }

  /** The collecting loop of build_column_summary for one field, then its totals. */
  method SummarizeColumn(reports: seq<FileReport>, col: string) returns (s: ColumnSummary)
    ensures s == SummaryOf(reports, col)
  {
    var unmapped: seq<string> := [];
    var vals: seq<real> := [];
    var sources: multiset<string> := multiset{};
    var i := 0;
    while i < |reports|
      invariant 0 <= i <= |reports|
      invariant unmapped == UnmappedFiles(reports[..i], col)
      invariant vals == Retentions(reports[..i], col)
      invariant sources == Sources(reports[..i], col)
    {
      var rep := reports[i];
      if UnmappedIn(rep, col) {
        unmapped := unmapped + [rep.file];
      } else {
        vals := vals + [RetentionIn(rep, col)];
        var src := SourceIn(rep, col);
        if src.Some? {
          sources := sources + multiset{src.value};
        }
      }
      Seqs.PrefixStep(reports, i);
      i := i + 1;
    }
    Seqs.WholePrefix(reports, i);
    s := ColumnSummary(|reports|, |unmapped|, |reports| - |unmapped|, Percent(|unmapped|, |reports|),
                       if vals == [] then None else Some(Average(vals)),
                       if vals == [] then None else Some(Min(vals)),
                       if vals == [] then None else Some(Max(vals)),
                       sources, unmapped);
  }

  /** build_column_summary: one summary per schema field. */
  method BuildColumnSummary(reports: seq<FileReport>, schema: seq<string>) returns (summary: map<string, ColumnSummary>)
    ensures forall c :: c in summary <==> c in schema
    ensures forall c :: c in summary ==> summary[c] == SummaryOf(reports, c)
  {
    summary := map[];
    var i := 0;
    while i < |schema|
      invariant 0 <= i <= |schema|
      invariant forall c :: c in summary <==> c in schema[..i]
      invariant forall c :: c in summary ==> summary[c] == SummaryOf(reports, c)
    {
      var s := SummarizeColumn(reports, schema[i]);
      summary := summary[schema[i] := s];
      assert schema[..i + 1] == schema[..i] + [schema[i]];
      i := i + 1;
    }
    Seqs.WholePrefix(schema, i);
  }

  // ---------------------------------------------------------------------
  // The coverage matrix
  // ---------------------------------------------------------------------

  /** A field's cell of the coverage matrix: UNMAPPED or the field's retention. */
  datatype MatrixCell = UnmappedCell | RetentionCell(pct: real)

  function CellOf(rep: FileReport, col: string): (c: MatrixCell)
    ensures c.UnmappedCell? <==> UnmappedIn(rep, col)
    ensures c.RetentionCell? ==> c.pct == RetentionIn(rep, col)
  {
    if UnmappedIn(rep, col) then UnmappedCell else RetentionCell(RetentionIn(rep, col))
  }

  /** A release's row of field cells, in schema order. */
  function MatrixRow(rep: FileReport, schema: seq<string>): (r: seq<MatrixCell>)
    ensures |r| == |schema| && forall i :: 0 <= i < |schema| ==> r[i] == CellOf(rep, schema[i])
  {
    if schema == [] then [] else MatrixRow(rep, schema[..|schema| - 1]) + [CellOf(rep, schema[|schema| - 1])]
  }

  /** A field's column of the matrix, one cell per release. */
  function MatrixColumn(reports: seq<FileReport>, col: string): (r: seq<MatrixCell>)
    ensures |r| == |reports| && forall i :: 0 <= i < |reports| ==> r[i] == CellOf(reports[i], col)
  {
    if reports == [] then [] else MatrixColumn(reports[..|reports| - 1], col) + [CellOf(reports[|reports| - 1], col)]
  }

  function CountUnmapped(cells: seq<MatrixCell>): nat {
    if cells == [] then 0 else CountUnmapped(cells[..|cells| - 1]) + (if cells[|cells| - 1].UnmappedCell? then 1 else 0)
  }

  /** The matrix and the field summary agree: a field's UNMAPPED cells are exactly its unmapped releases. */
  lemma {:induction false} MatrixColumnAgrees(reports: seq<FileReport>, col: string)
    ensures CountUnmapped(MatrixColumn(reports, col)) == SummaryOf(reports, col).filesUnmapped
  {
    if reports != [] {
      var front := reports[..|reports| - 1];
      MatrixColumnAgrees(front, col);
      assert MatrixColumn(reports, col)[..|reports| - 1] == MatrixColumn(front, col);
    }
  }

  /** A release's row has as many UNMAPPED cells as its report counts unmapped fields. */
  lemma {:induction false} MatrixRowAgrees(rep: FileReport, schema: seq<string>)
    requires forall f :: f in schema ==> f in rep.columns
    ensures CountUnmapped(MatrixRow(rep, schema)) == |Select(schema, rep.columns, UnmappedFields)|
  {
    if schema != [] {
      var front := schema[..|schema| - 1];
      MatrixRowAgrees(rep, front);
      assert MatrixRow(rep, schema)[..|schema| - 1] == MatrixRow(rep, front);
    }
  }
}
