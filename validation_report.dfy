/**
 * The pre-harmonization validation report: for every release it discovers,
 * per target field, which source-name variants the release's sample has,
 * classifies what it finds into issues, and lists the columns no target
 * reads; over all releases it tallies the source each target would use and
 * groups the issues by type.
 */
module ValidationReport {
  import opened Wrappers
  import opened Text
  import opened Cells
  import opened Resolver
  import ReleaseNames
  import Seqs

  /** TARGET_COLUMNS: target field -> source-name variants, in the order the report examines them. */
  const TargetColumns: seq<(string, seq<string>)> := [
    ("PUFREG", ["PUFREG", "CREG", "REG"]),
    ("PUFSVYYR", ["PUFSVYYR", "SVYYR", "CYEAR"]),
    ("PUFSVYMO", ["PUFSVYMO", "SVYMO", "CMONTH"]),
    ("PUFHHNUM", ["PUFHHNUM", "HHNUM"]),
    ("PUFPSU", ["PUFPSU", "PSU", "PSU_NO", "STRATUM"]),
    ("PUFHHSIZE", ["PUFHHSIZE", "HHID"]),
    ("PUFPWGT", ["PUFPWGT", "PUFPWGTFIN", "CFWGT", "FWGT", "PWGT", "RFWGT"]),
    ("PUFC01_LNO", ["PUFC01_LNO", "CC101_LNO", "CC04_LNOPRV", "C101_LNO", "C04_LNO", "A01_LNO", "LNO"]),
    ("PUFC03_REL", ["PUFC03_REL", "CC05_REL", "C05_REL", "A05_REL"]),
    ("PUFC04_SEX", ["PUFC04_SEX", "CC06_SEX", "C06_SEX", "A06_SEX"]),
    ("PUFC05_AGE", ["PUFC05_AGE", "CC07_AGE", "C07_AGE", "A07_AGE"]),
    ("PUFC06_MSTAT", ["PUFC06_MSTAT", "CC08_MSTAT", "CC08_MS", "C08_MSTAT", "C08_MS"]),
    ("PUFC07_GRADE", ["PUFC07_GRADE", "CC09_GRADE", "C09_GRADE", "C09_GRD", "J12C09_GRADE"]),
    ("PUFC08_CURSCH", ["PUFC08_CURSCH", "A02_CURSCH", "A02_CSCH", "CURSCH"]),
    ("PUFC09_GRADTECH", ["PUFC09_GRADTECH", "J12C11_GRADTECH", "J12C11COURSE", "C11_GRADTECH"]),
    ("PUFC10_CONWR", ["PUFC10_CONWR", "CC10_CONWR", "C10_CONWR", "C10_CNWR"]),
    ("PUFC11_WORK", ["PUFC11_WORK", "CC13_WORK", "CC01_WORK", "C13_WORK", "C11_WORK", "B01_WORK", "A04_WORK"]),
    ("PUFC12_JOB", ["PUFC12_JOB", "CC14_JOB", "CC02_JOB", "C14_JOB", "B02_JOB", "A04_JOB"]),
    ("PUFNEWEMPSTAT", ["PUFNEWEMPSTAT", "NEWEMPSTAT", "ANSOEMPSTAT", "CEMPST1", "CEMPST2"]),
    ("PUFC14_PROCC", ["PUFC14_PROCC", "CC16_PROCC", "C16_PROCC", "CC12_USOCC", "J01_USOCC", "B04_OCC", "A04_OCC"]),
    ("PUFC16_PKB", ["PUFC16_PKB", "CC18_PKB", "C18_PKB", "B06_IND", "A06_IND"]),
    ("PUFC17_NATEM", ["PUFC17_NATEM", "CC20_NATEM", "C20_NATEM"]),
    ("PUFC18_PNWHRS", ["PUFC18_PNWHRS", "CC21_PNWHRS", "C21_PNWHRS", "A04_NWHRS"]),
    ("PUFC19_PHOURS", ["PUFC19_PHOURS", "CC22_PHOURS", "C22_PHOURS"]),
    ("PUFC20_PWMORE", ["PUFC20_PWMORE", "CC23_PWMORE", "C23_PWMORE"]),
    ("PUFC21_PLADDW", ["PUFC21_PLADDW", "CC24_PLADDW", "C24_PLADDW"]),
    ("PUFC22_PFWRK", ["PUFC22_PFWRK", "CC25_PFWRK", "C25_PFWRK"]),
    ("PUFC23_PCLASS", ["PUFC23_PCLASS", "CC19_PCLASS", "C19_PCLASS"]),
    ("PUFC24_PBASIS", ["PUFC24_PBASIS", "CC26_PBASIS", "C26_PBASIS"]),
    ("PUFC25_PBASIC", ["PUFC25_PBASIC", "CC27_PBASIC", "C27_PBASIC"]),
    ("PUFC26_OJOB", ["PUFC26_OJOB", "CC28_OJOB", "C28_OJOB"]),
    ("PUFC27_NJOBS", ["PUFC27_NJOBS", "CC27_NJOBS", "A03_JOBS", "NJOBS"]),
    ("PUFC28_THOURS", ["PUFC28_THOURS", "CC28_THOURS", "A04_THOURS", "THOURS"]),
    ("PUFC29_WWM48H", ["PUFC29_WWM48H", "CC29_WWM48H", "A05_RWM48H", "RWM48H"]),
    ("PUFC30_LOOKW", ["PUFC30_LOOKW", "CC38_LOOKW", "CC30_LOOKW", "C38_LOOKW", "B08_LOOKW", "A06_LOOKW"]),
    ("PUFC31_FLWRK", ["PUFC31_FLWRK", "CC41_FLWRK", "C41_FLWRK"]),
    ("PUFC32_JOBSM", ["PUFC32_JOBSM", "CC39_JOBSM", "CC32_JOBSM", "C39_JOBSM", "JOBSM"]),
    ("PUFC33_WEEKS", ["PUFC33_WEEKS", "CC40_WEEKS", "CC33_WEEKS", "C40_WEEKS", "WEEKS"]),
    ("PUFC34_WYNOT", ["PUFC34_WYNOT", "CC42_WYNOT", "C42_WYNOT"]),
    ("PUFC35_LTLOOKW", ["PUFC35_LTLOOKW", "CC35_LTLOOKW", "A06_LTLOOKW", "A06_LLKW"]),
    ("PUFC36_AVAIL", ["PUFC36_AVAIL", "CC37_AVAIL", "CC36_AVAIL", "C37_AVAIL", "A07_AVAIL"]),
    ("PUFC37_WILLING", ["PUFC37_WILLING", "A07_WILLING", "A07_WLNG", "WILLING"]),
    ("PUFC38_PREVJOB", ["PUFC38_PREVJOB", "CC43_LBEF", "C43_LBEF"]),
    ("PUFC41_POCC", ["PUFC41_POCC", "CC45_POCC", "C45_POCC", "A10_POCC"]),
    ("PUFC43_QKB", ["PUFC43_QKB", "PQKB", "QKB", "A09_PQKB"]),
    ("PUFURB2015", ["PUFURB2015", "PUFURB2K10", "URB2K1970", "URB2K70"])]

  /** Name fragments that mark an unmapped column as possibly important. */
  const ImportantKeywords: seq<string> :=
    ["OCC", "JOB", "WORK", "EMP", "IND", "PKB", "GRADE", "AGE", "SEX", "REL", "MSTAT", "WAGE", "PAY", "HOUR"]

  /** The targets whose absence the report lists as a critical problem. */
  const CriticalTargets: seq<string> := ["PUFC04_SEX", "PUFC05_AGE", "PUFC07_GRADE", "PUFC14_PROCC", "PUFPWGT"]

  /** A source with fewer filled cells than this in the sample is an empty placeholder. */
  const PlaceholderLimit: nat := 10

  /** At most this many important unmapped columns are named in the issue. */
  const UnmappedShown: nat := 10

  // ---------------------------------------------------------------------
  // Filled cells of a sampled column
  // ---------------------------------------------------------------------

  /** Number of cells that hold a value; for a text column, a non-blank one. */
  function CountValues(isText: bool, cells: seq<Option<Cell>>): (n: nat)
    ensures n <= CountSome(cells)
  {
    if cells == [] then 0
    else CountValues(isText, cells[..|cells| - 1]) + (if HasValue(isText, cells[|cells| - 1]) then 1 else 0)
  }

  /**
   * Number of cells whose rendering is non-blank once stripped, where a
   * missing cell renders as the text "nan".
   */
  function CountRenderedNonBlank(cells: seq<Option<Cell>>): (n: nat)
    ensures n <= |cells|
  {
    if cells == [] then 0
    else
      var last := cells[|cells| - 1];
      CountRenderedNonBlank(cells[..|cells| - 1]) + (if last.None? || !IsBlank(Render(last.value)) then 1 else 0)
  }

  /** The report's non-empty count as written: a text column counts its missing cells as filled. */
  function NonEmptyAsWritten(col: Column): (n: nat)
    ensures n <= |col.cells|
    ensures !col.isText ==> n == CountSome(col.cells)
  {
    if col.isText then CountRenderedNonBlank(col.cells) else CountSome(col.cells)
  }

  /**
   * The count as written never falls below the usable cells, so every
   * column it flags as a placeholder is one the intended count flags too.
   */
  lemma {:induction false} AsWrittenCountsMore(col: Column)
    ensures NonEmpty(col) <= NonEmptyAsWritten(col)
    ensures NonEmptyAsWritten(col) < PlaceholderLimit ==> NonEmpty(col) < PlaceholderLimit
  {
    if col.isText {
      RenderedCountsMore(col.cells);
    }
  }

  lemma {:induction false} RenderedCountsMore(cells: seq<Option<Cell>>)
    ensures CountValues(true, cells) <= CountRenderedNonBlank(cells)
  {
    if cells != [] {
      RenderedCountsMore(cells[..|cells| - 1]);
    }
  }

  /** The non-empty count as intended: the cells that hold a usable value. */
  function NonEmpty(col: Column): (n: nat)
    ensures n <= CountSome(col.cells)
    ensures n == 0 <==> !HasContent(col)
    ensures !col.isText ==> n == CountSome(col.cells)
  {
    CountValuesZero(col.isText, col.cells);
    CountValuesNumeric(col.isText, col.cells);
    CountValues(col.isText, col.cells)
  }

  lemma {:induction false} CountValuesZero(isText: bool, cells: seq<Option<Cell>>)
    ensures CountValues(isText, cells) == 0 <==> forall i :: 0 <= i < |cells| ==> !HasValue(isText, cells[i])
  {
    if cells != [] {
      var front := cells[..|cells| - 1];
      CountValuesZero(isText, front);
      assert forall i :: 0 <= i < |front| ==> front[i] == cells[i];
    }
  }

  lemma {:induction false} CountValuesNumeric(isText: bool, cells: seq<Option<Cell>>)
    ensures !isText ==> CountValues(isText, cells) == CountSome(cells)
  {
    if cells != [] {
      CountValuesNumeric(isText, cells[..|cells| - 1]);
    }
  }

  /** A column that is all missing has no usable value. */
  lemma {:induction false} CountValuesMissing(isText: bool, cells: seq<Option<Cell>>)
    requires forall i :: 0 <= i < |cells| ==> cells[i].None?
    ensures CountValues(isText, cells) == 0
    ensures CountRenderedNonBlank(cells) == |cells|
  {
    if cells != [] {
      CountValuesMissing(isText, cells[..|cells| - 1]);
    }
  }

  /**
   * A text column with one value and nine missing cells: as written it
   * counts ten filled cells and is not a placeholder; it holds one value.
   */
  lemma MissingCountedAsFilled()
    ensures var col := Column(true, [Some(Str("A"))] + Repeat9None());
      NonEmptyAsWritten(col) == 10 && NonEmpty(col) == 1 &&
      !(NonEmptyAsWritten(col) < PlaceholderLimit) && NonEmpty(col) < PlaceholderLimit
  {
    assert !IsBlank(Render(Str("A"))) by {
      assert Render(Str("A")) == "A";
      StripNoSpace("A");
    }
    OneValueAmongMissing(Str("A"), Repeat9None());
  }

  /** A text column with one non-blank value and otherwise missing cells. */
  lemma OneValueAmongMissing(v: Cell, rest: seq<Option<Cell>>)
    requires !IsBlank(Render(v))
    requires forall i :: 0 <= i < |rest| ==> rest[i].None?
    ensures CountValues(true, [Some(v)] + rest) == 1
    ensures CountRenderedNonBlank([Some(v)] + rest) == 1 + |rest|
  {
    var one: seq<Option<Cell>> := [Some(v)];
    CountValuesMissing(true, rest);
    CountValuesAppend(true, one, rest);
    assert one[..0] == [];
  }

  function Repeat9None(): (r: seq<Option<Cell>>)
    ensures |r| == 9 && forall i :: 0 <= i < 9 ==> r[i].None?
  {
    [None, None, None, None, None, None, None, None, None]
  }

  /** Both counts add up over a concatenation. */
  lemma {:induction false} CountValuesAppend(isText: bool, a: seq<Option<Cell>>, b: seq<Option<Cell>>)
    ensures CountValues(isText, a + b) == CountValues(isText, a) + CountValues(isText, b)
    ensures CountRenderedNonBlank(a + b) == CountRenderedNonBlank(a) + CountRenderedNonBlank(b)
  {
    if b != [] {
      var b' := b[..|b| - 1];
      CountValuesAppend(isText, a, b');
      assert (a + b)[..|a + b| - 1] == a + b';
    } else {
      assert a + b == a;
    }
  }

  // ---------------------------------------------------------------------
  // Source discovery for one target
  // ---------------------------------------------------------------------

  /**
   * What the report records about a present variant; the filled share is
   * None when the sample has no rows (the division gives NaN).
   */
  datatype FoundSource = FoundSource(
    sourceName: string,
    nonNull: nat,
    nonEmpty: nat,
    sampleSize: nat,
    pctFilled: Option<real>,
    isPlaceholder: bool)

  /** The record of the column at position idx of a sample with n rows. */
  function SourceAt(df: Frame, idx: nat, n: nat): (f: FoundSource)
    requires idx < |df|
    ensures f.sourceName == df[idx].name && f.sampleSize == n
    ensures f.isPlaceholder <==> NonEmptyAsWritten(df[idx].col) < PlaceholderLimit
    ensures f.pctFilled.None? <==> n == 0
  {
    var col := df[idx].col;
    var filled := NonEmptyAsWritten(col);
    FoundSource(df[idx].name, CountSome(col.cells), filled, n,
                if n == 0 then None else Some(Percent(filled, n)), filled < PlaceholderLimit)
  }

  /** The present variants among vs, in variant order, each read through the column map. */
  function FoundSources(df: Frame, cmu: map<string, nat>, n: nat, vs: seq<string>): (r: seq<FoundSource>)
    requires IndexesInto(cmu, df)
    ensures |r| <= |vs|
  {
    if vs == [] then []
    else
      var last := Upper(vs[|vs| - 1]);
      FoundSources(df, cmu, n, vs[..|vs| - 1]) + (if last in cmu then [SourceAt(df, cmu[last], n)] else [])
  }

  /** Nothing is found exactly when no variant is present. */
  lemma {:induction false} NoneFound(df: Frame, cmu: map<string, nat>, n: nat, vs: seq<string>)
    requires IndexesInto(cmu, df)
    ensures FoundSources(df, cmu, n, vs) == [] <==> forall j :: 0 <= j < |vs| ==> Upper(vs[j]) !in cmu
  {
    if vs != [] {
      var front := vs[..|vs| - 1];
      var last := Upper(vs[|vs| - 1]);
      NoneFound(df, cmu, n, front);
      assert forall j :: 0 <= j < |front| ==> front[j] == vs[j];
      var rest := FoundSources(df, cmu, n, front);
      if last in cmu {
        assert FoundSources(df, cmu, n, vs) == rest + [SourceAt(df, cmu[last], n)];
      } else {
        assert FoundSources(df, cmu, n, vs) == rest;
      }
    }
  }

  /**
   * The source the report will use is the first variant present in the
   * sample, however little it holds: the column its upper-cased name maps to.
   */
  lemma {:induction false} FirstFoundIsFirstPresent(df: Frame, cmu: map<string, nat>, n: nat, vs: seq<string>, k: nat)
    requires IndexesInto(cmu, df)
    requires k < |vs| && Upper(vs[k]) in cmu
    requires forall j :: 0 <= j < k ==> Upper(vs[j]) !in cmu
    ensures FoundSources(df, cmu, n, vs) != []
    ensures FoundSources(df, cmu, n, vs)[0] == SourceAt(df, cmu[Upper(vs[k])], n)
  {
    var front := vs[..|vs| - 1];
    if k < |vs| - 1 {
      FirstFoundIsFirstPresent(df, cmu, n, front, k);
    } else {
      NoneFound(df, cmu, n, front);
    }
  }

  /** mapping_info[target]: the found sources, the one to use and whether there are several. */
  datatype TargetMapping = TargetMapping(found: seq<FoundSource>, willUse: Option<string>, multiple: bool)

  function MappingOf(found: seq<FoundSource>): (m: TargetMapping)
    ensures m.found == found
  {
    TargetMapping(found, if found == [] then None else Some(found[0].sourceName), |found| > 1)
  }

  // ---------------------------------------------------------------------
  // Issues
  // ---------------------------------------------------------------------

  datatype Issue =
    | Missing(target: string)
    | Placeholder(target: string, empty: string, filled: string, filledPct: Option<real>)
    | DataQuality(target: string, first: string, firstPct: real, second: string, secondPct: real)
    | UnmappedImportant(columns: seq<string>)
    | ReadError(message: string)

  /** first < second - 20; a NaN share (an empty sample) compares false. */
  predicate MuchLessFilled(first: Option<real>, second: Option<real>) {
    first.Some? && second.Some? && first.value < second.value - 20.0
  }

  /** The issue, if any, that the found sources of a target raise. */
  function Classify(target: string, found: seq<FoundSource>): (r: Option<Issue>)
    ensures r.Some? ==> r.value.Missing? || r.value.Placeholder? || r.value.DataQuality?
  {
    if found == [] then Some(Missing(target))
    else if |found| == 1 then None
    else if found[0].isPlaceholder && !found[1].isPlaceholder then
      Some(Placeholder(target, found[0].sourceName, found[1].sourceName, found[1].pctFilled))
    else if MuchLessFilled(found[0].pctFilled, found[1].pctFilled) then
      Some(DataQuality(target, found[0].sourceName, found[0].pctFilled.value, found[1].sourceName, found[1].pctFilled.value))
    else None
  }

  /** MISSING is raised exactly when no variant of the target is present. */
  lemma ClassifyMissing(df: Frame, cmu: map<string, nat>, n: nat, target: string, vs: seq<string>)
    requires IndexesInto(cmu, df)
    ensures Classify(target, FoundSources(df, cmu, n, vs)) == Some(Missing(target)) <==>
            forall j :: 0 <= j < |vs| ==> Upper(vs[j]) !in cmu
  {
    NoneFound(df, cmu, n, vs);
  }

  /** The first two found sources are those of the first two present variants. */
  lemma {:induction false} FirstTwoFound(df: Frame, cmu: map<string, nat>, n: nat, vs: seq<string>, k1: nat, k2: nat)
    requires IndexesInto(cmu, df)
    requires k1 < k2 < |vs| && Upper(vs[k1]) in cmu && Upper(vs[k2]) in cmu
    requires forall j :: 0 <= j < k2 && j != k1 ==> Upper(vs[j]) !in cmu
    ensures |FoundSources(df, cmu, n, vs)| >= 2
    ensures FoundSources(df, cmu, n, vs)[0] == SourceAt(df, cmu[Upper(vs[k1])], n)
    ensures FoundSources(df, cmu, n, vs)[1] == SourceAt(df, cmu[Upper(vs[k2])], n)
  {
    var front := vs[..|vs| - 1];
    assert forall j :: 0 <= j < |front| ==> front[j] == vs[j];
    if k2 < |vs| - 1 {
      FirstTwoFound(df, cmu, n, front, k1, k2);
    } else {
      FirstFoundIsFirstPresent(df, cmu, n, front, k1);
      OnlyOneFound(df, cmu, n, front, k1);
    }
  }

  /** With a single present variant exactly one source is found. */
  lemma {:induction false} OnlyOneFound(df: Frame, cmu: map<string, nat>, n: nat, vs: seq<string>, k: nat)
    requires IndexesInto(cmu, df)
    requires k < |vs| && Upper(vs[k]) in cmu
    requires forall j :: 0 <= j < |vs| && j != k ==> Upper(vs[j]) !in cmu
    ensures |FoundSources(df, cmu, n, vs)| == 1
  {
    var front := vs[..|vs| - 1];
    assert forall j :: 0 <= j < |front| ==> front[j] == vs[j];
    if k < |vs| - 1 {
      OnlyOneFound(df, cmu, n, front, k);
    } else {
      NoneFound(df, cmu, n, front);
    }
  }

  /** A target with a single present variant raises no issue. */
  lemma ClassifySingle(df: Frame, cmu: map<string, nat>, n: nat, target: string, vs: seq<string>, k: nat)
    requires IndexesInto(cmu, df)
    requires k < |vs| && Upper(vs[k]) in cmu
    requires forall j :: 0 <= j < |vs| && j != k ==> Upper(vs[j]) !in cmu
    ensures Classify(target, FoundSources(df, cmu, n, vs)).None?
  {
    OnlyOneFound(df, cmu, n, vs, k);
  }

  /**
   * With at least two present variants the issue depends on the first two
   * only: PLACEHOLDER iff the first has fewer than ten filled cells and the
   * second at least ten; otherwise DATA_QUALITY iff the sample has rows and
   * the first's filled share is more than 20 points below the second's.
   */
  lemma ClassifyFirstTwo(df: Frame, cmu: map<string, nat>, n: nat, target: string, vs: seq<string>, k1: nat, k2: nat)
    requires IndexesInto(cmu, df)
    requires k1 < k2 < |vs| && Upper(vs[k1]) in cmu && Upper(vs[k2]) in cmu
    requires forall j :: 0 <= j < k2 && j != k1 ==> Upper(vs[j]) !in cmu
    ensures var first := NonEmptyAsWritten(df[cmu[Upper(vs[k1])]].col);
      var second := NonEmptyAsWritten(df[cmu[Upper(vs[k2])]].col);
      var r := Classify(target, FoundSources(df, cmu, n, vs));
      var placeholder := first < PlaceholderLimit <= second;
      (r.Some? && r.value.Placeholder? <==> placeholder) &&
      (r.Some? && r.value.DataQuality? <==>
        !placeholder && n > 0 && Percent(first, n) < Percent(second, n) - 20.0) &&
      (r.Some? ==> r.value.Placeholder? || r.value.DataQuality?)
  {
    FirstTwoFound(df, cmu, n, vs, k1, k2);
  }

  /**
   * An empty sample can only raise MISSING: every present source is an
   * empty placeholder and its filled share is NaN.
   */
  lemma EmptySampleOnlyMissing(df: Frame, cmu: map<string, nat>, target: string, vs: seq<string>)
    requires IndexesInto(cmu, df) && Rectangular(df, 0)
    ensures var r := Classify(target, FoundSources(df, cmu, 0, vs));
      r.None? || r == Some(Missing(target))
  {
    var found := FoundSources(df, cmu, 0, vs);
    if |found| >= 2 {
      EmptySampleAllPlaceholders(df, cmu, vs);
      assert found[1].isPlaceholder;
    }
  }

  lemma {:induction false} EmptySampleAllPlaceholders(df: Frame, cmu: map<string, nat>, vs: seq<string>)
    requires IndexesInto(cmu, df) && Rectangular(df, 0)
    ensures forall i :: 0 <= i < |FoundSources(df, cmu, 0, vs)| ==>
      FoundSources(df, cmu, 0, vs)[i].isPlaceholder && FoundSources(df, cmu, 0, vs)[i].pctFilled.None?
  {
    if vs != [] {
      var last := Upper(vs[|vs| - 1]);
      EmptySampleAllPlaceholders(df, cmu, vs[..|vs| - 1]);
      if last in cmu {
        assert |df[cmu[last]].col.cells| == 0;
        assert NonEmptyAsWritten(df[cmu[last]].col) == 0;
      }
    }
  }

  /** The fixed label of each kind of issue. */
  function KindName(i: Issue): (r: string)
    ensures forall j :: 0 <= j < |r| ==> r[j] != ':'
  {
    match i
    case Missing(_) => "MISSING"
    case Placeholder(_, _, _, _) => "PLACEHOLDER"
    case DataQuality(_, _, _, _, _) => "DATA_QUALITY"
    case UnmappedImportant(_) => "UNMAPPED_IMPORTANT"
    case ReadError(_) => "READ_ERROR"
  }

  /** The free-text part of an issue line (the percentages it quotes are not rendered). */
  function Detail(i: Issue): string {
    match i
    case Missing(t) => t + " - no matching column found"
    case Placeholder(t, e, f, _) => t + " - '" + e + "' is empty, but '" + f + "' has data"
    case DataQuality(t, a, _, b, _) => t + " - '" + a + "' has less data than '" + b + "'"
    case UnmappedImportant(cols) => Join(", ", cols)
    case ReadError(m) => m
  }

  /** The line the report stores for an issue: its label, a colon and its detail. */
  function IssueText(i: Issue): string {
    KindName(i) + ": " + Detail(i)
  }

  /** issue.split(':')[0]: the type under which the report groups an issue line. */
  function IssueType(text: string): string {
    UpToChar(text, ':')
  }

  /** Splitting an issue line at its first colon gives back the issue's label, whatever its detail holds. */
  lemma IssueTypeOfText(i: Issue)
    ensures IssueType(IssueText(i)) == KindName(i)
  {
    UpToCharPrefix(KindName(i), ": " + Detail(i));
    assert IssueText(i) == KindName(i) + (": " + Detail(i));
  }

  /** Splitting at the first colon stops at the end of a colon-free prefix followed by a colon. */
  lemma {:induction false} UpToCharPrefix(k: string, rest: string)
    requires forall j :: 0 <= j < |k| ==> k[j] != ':'
    requires rest != [] && rest[0] == ':'
    ensures UpToChar(k + rest, ':') == k
  {
    if k != [] {
      UpToCharPrefix(k[1..], rest);
      assert (k + rest)[1..] == k[1..] + rest;
    } else {
      assert k + rest == rest;
    }
  }

  // ---------------------------------------------------------------------
  // Unmapped columns
  // ---------------------------------------------------------------------

  /** The upper-cased variants of one list. */
  function Uppers(vs: seq<string>): (r: set<string>)
    ensures forall j :: 0 <= j < |vs| ==> Upper(vs[j]) in r
    ensures forall x :: x in r ==> exists j :: 0 <= j < |vs| && Upper(vs[j]) == x
  {
    if vs == [] then {} else Uppers(vs[..|vs| - 1]) + {Upper(vs[|vs| - 1])}
  }

  /** all_mapped: every upper-cased variant of every target. */
  function AllVariants(targets: seq<(string, seq<string>)>): set<string> {
    if targets == [] then {} else AllVariants(targets[..|targets| - 1]) + Uppers(targets[|targets| - 1].1)
  }

  /** A name is mapped exactly when some variant of some target upper-cases to it. */
  lemma AllVariantsMember(targets: seq<(string, seq<string>)>, x: string)
    ensures x in AllVariants(targets) <==>
      exists i, j :: 0 <= i < |targets| && 0 <= j < |targets[i].1| && Upper(targets[i].1[j]) == x
  {
    if x in AllVariants(targets) {
      AllVariantsSound(targets, x);
    }
    if exists i, j :: 0 <= i < |targets| && 0 <= j < |targets[i].1| && Upper(targets[i].1[j]) == x {
      var i, j :| 0 <= i < |targets| && 0 <= j < |targets[i].1| && Upper(targets[i].1[j]) == x;
      AllVariantsComplete(targets, i, j);
    }
  }

  /** Every mapped name is the upper-cased form of some variant. */
  lemma {:induction false} AllVariantsSound(targets: seq<(string, seq<string>)>, x: string)
    requires x in AllVariants(targets)
    ensures exists i, j :: 0 <= i < |targets| && 0 <= j < |targets[i].1| && Upper(targets[i].1[j]) == x
  {
    var front, last := targets[..|targets| - 1], targets[|targets| - 1].1;
    assert AllVariants(targets) == AllVariants(front) + Uppers(last);
    if x in AllVariants(front) {
      AllVariantsSound(front, x);
      var i, j :| 0 <= i < |front| && 0 <= j < |front[i].1| && Upper(front[i].1[j]) == x;
      assert front[i] == targets[i];
      assert 0 <= i < |targets| && 0 <= j < |targets[i].1| && Upper(targets[i].1[j]) == x;
    } else {
      var j :| 0 <= j < |last| && Upper(last[j]) == x;
      assert Upper(targets[|targets| - 1].1[j]) == x;
    }
  }

  /** Every variant's upper-cased form is mapped. */
  lemma {:induction false} AllVariantsComplete(targets: seq<(string, seq<string>)>, i: nat, j: nat)
    requires i < |targets| && j < |targets[i].1|
    ensures Upper(targets[i].1[j]) in AllVariants(targets)
  {
    var front, last := targets[..|targets| - 1], targets[|targets| - 1].1;
    assert AllVariants(targets) == AllVariants(front) + Uppers(last);
    if i < |front| {
      assert front[i] == targets[i];
      AllVariantsComplete(front, i, j);
    }
  }

  /** The columns, in order, whose upper-cased name is none of the mapped variants. */
  function Unmapped(columns: seq<string>, mapped: set<string>): (r: seq<string>)
    ensures |r| <= |columns|
    ensures forall c :: c in r <==> c in columns && Upper(c) !in mapped
  {
    if columns == [] then []
    else
      var last := columns[|columns| - 1];
      Unmapped(columns[..|columns| - 1], mapped) + (if Upper(last) !in mapped then [last] else [])
  }

  /** The upper-cased name contains one of the important keywords. */
  predicate LooksImportant(c: string) {
    exists k :: 0 <= k < |ImportantKeywords| && Contains(Upper(c), ImportantKeywords[k])
  }

  /** The columns, in order, that look important. */
  function Important(columns: seq<string>): (r: seq<string>)
    ensures |r| <= |columns|
    ensures forall c :: c in r <==> c in columns && LooksImportant(c)
  {
    if columns == [] then []
    else
      var last := columns[|columns| - 1];
      Important(columns[..|columns| - 1]) + (if LooksImportant(last) then [last] else [])
  }

  // ---------------------------------------------------------------------
  // analyze_file
  // ---------------------------------------------------------------------

  /** A release's sample as read: the table, its row count and the row count of the whole file. */
  datatype Sample = Sample(df: Frame, sampleRows: nat, totalRows: nat)

  /** The per-release record of the report. */
  datatype FileAnalysis = FileAnalysis(
    filename: string,
    year: Option<int>,
    month: Option<nat>,
    totalRows: Option<nat>,
    columns: seq<string>,
    issues: seq<Issue>,
    mapping: map<string, TargetMapping>,
    unmapped: Option<seq<string>>)

  /** The headers of a table, in order. */
  function Headers(df: Frame): (r: seq<string>)
    ensures |r| == |df| && forall i :: 0 <= i < |df| ==> r[i] == df[i].name
  {
    if df == [] then [] else Headers(df[..|df| - 1]) + [df[|df| - 1].name]
  }

  /** The target names of a target table. */
  function TargetNames(targets: seq<(string, seq<string>)>): set<string> {
    if targets == [] then {} else TargetNames(targets[..|targets| - 1]) + {targets[|targets| - 1].0}
  }

  /** Issues raised by the targets, in target order. */
  function TargetIssues(df: Frame, cmu: map<string, nat>, n: nat, targets: seq<(string, seq<string>)>): (r: seq<Issue>)
    requires IndexesInto(cmu, df)
    ensures |r| <= |targets|
  {
    if targets == [] then []
    else
      var (t, vs) := targets[|targets| - 1];
      TargetIssues(df, cmu, n, targets[..|targets| - 1]) +
        (match Classify(t, FoundSources(df, cmu, n, vs)) case None => [] case Some(i) => [i])
  }

  /** mapping_info: each target's mapping, a later entry for the same target replacing an earlier one. */
  function TargetMappings(df: Frame, cmu: map<string, nat>, n: nat, targets: seq<(string, seq<string>)>): (r: map<string, TargetMapping>)
    requires IndexesInto(cmu, df)
    ensures r.Keys == TargetNames(targets)
  {
    if targets == [] then map[]
    else
      var (t, vs) := targets[|targets| - 1];
      TargetMappings(df, cmu, n, targets[..|targets| - 1])[t := MappingOf(FoundSources(df, cmu, n, vs))]
  }

  predicate DistinctTargets(targets: seq<(string, seq<string>)>) {
    forall i, j :: 0 <= i < j < |targets| ==> targets[i].0 != targets[j].0
  }

  /** With distinct targets, each target's mapping is built from its own variants. */
  lemma {:induction false} TargetMappingsAt(df: Frame, cmu: map<string, nat>, n: nat, targets: seq<(string, seq<string>)>, i: nat)
    requires IndexesInto(cmu, df) && DistinctTargets(targets) && i < |targets|
    ensures targets[i].0 in TargetMappings(df, cmu, n, targets)
    ensures TargetMappings(df, cmu, n, targets)[targets[i].0] == MappingOf(FoundSources(df, cmu, n, targets[i].1))
  {
    var front := targets[..|targets| - 1];
    if i < |targets| - 1 {
      assert forall a, b :: 0 <= a < b < |front| ==> front[a] == targets[a] && front[b] == targets[b];
      TargetMappingsAt(df, cmu, n, front, i);
    }
  }

  /** The first ten entries (or all of them). */
  function Shown(cols: seq<string>): (r: seq<string>)
    ensures |r| <= UnmappedShown && (|cols| <= UnmappedShown ==> r == cols)
    ensures r == cols[..|r|]
  {
    if |cols| <= UnmappedShown then cols else cols[..UnmappedShown]
  }

  /** The issue naming the first important unmapped columns, when there are any. */
  function UnmappedIssues(unmapped: seq<string>): seq<Issue> {
    var important := Important(unmapped);
    if important == [] then [] else [UnmappedImportant(Shown(important))]
  }

  /** The analysis of one release; a sample that could not be read is None with its error message. */
  function Analysis(filename: string, stem: string, sample: Option<Sample>, err: string,
                    targets: seq<(string, seq<string>)>): FileAnalysis
  {
    var (year, month) := ReleaseNames.ExtractYearMonth(stem);
    match sample
    case None => FileAnalysis(filename, year, month, None, [], [ReadError(err)], map[], None)
    case Some(s) =>
      var cmu := ColMapUpper(s.df);
      var unmapped := Unmapped(Headers(s.df), AllVariants(targets));
      FileAnalysis(filename, year, month, Some(s.totalRows), Headers(s.df),
                   TargetIssues(s.df, cmu, s.sampleRows, targets) + UnmappedIssues(unmapped),
                   TargetMappings(s.df, cmu, s.sampleRows, targets), Some(unmapped))
  }

  /** A release that cannot be read has the single READ_ERROR issue and no mapping. */
  lemma ReadFailure(filename: string, stem: string, err: string, targets: seq<(string, seq<string>)>)
    ensures var a := Analysis(filename, stem, None, err, targets);
      a.issues == [ReadError(err)] && a.mapping == map[] && a.totalRows.None? && a.unmapped.None? &&
      (a.year, a.month) == ReleaseNames.ExtractYearMonth(stem)
  {
  }

  /**
   * In a readable release every target has a mapping, and the source it
   * will use is the column of the first variant present in the sample.
   */
  lemma WillUseFirstPresent(filename: string, stem: string, s: Sample, err: string,
                            targets: seq<(string, seq<string>)>, i: nat, k: nat)
    requires DistinctTargets(targets) && i < |targets|
    requires k < |targets[i].1| && Upper(targets[i].1[k]) in ColMapUpper(s.df)
    requires forall j :: 0 <= j < k ==> Upper(targets[i].1[j]) !in ColMapUpper(s.df)
    ensures var a := Analysis(filename, stem, Some(s), err, targets);
      targets[i].0 in a.mapping &&
      a.mapping[targets[i].0].willUse == Some(s.df[ColMapUpper(s.df)[Upper(targets[i].1[k])]].name)
  {
    var cmu := ColMapUpper(s.df);
    TargetMappingsAt(s.df, cmu, s.sampleRows, targets, i);
    FirstFoundIsFirstPresent(s.df, cmu, s.sampleRows, targets[i].1, k);
  }

  /** A target none of whose variants is present has no source to use. */
  lemma NoSourceWhenAbsent(filename: string, stem: string, s: Sample, err: string,
                           targets: seq<(string, seq<string>)>, i: nat)
    requires DistinctTargets(targets) && i < |targets|
    requires forall j :: 0 <= j < |targets[i].1| ==> Upper(targets[i].1[j]) !in ColMapUpper(s.df)
    ensures var a := Analysis(filename, stem, Some(s), err, targets);
      targets[i].0 in a.mapping && a.mapping[targets[i].0].willUse.None? && a.mapping[targets[i].0].found == []
  {
    var cmu := ColMapUpper(s.df);
    TargetMappingsAt(s.df, cmu, s.sampleRows, targets, i);
    NoneFound(s.df, cmu, s.sampleRows, targets[i].1);
  }

  /**
   * The unmapped columns of a readable release are exactly its headers
   * matching no variant of any target, upper-cased; the important ones
   * are among them.
   */
  lemma UnmappedExact(filename: string, stem: string, s: Sample, err: string,
                      targets: seq<(string, seq<string>)>, c: string)
    ensures var a := Analysis(filename, stem, Some(s), err, targets);
      a.unmapped.Some? &&
      (c in a.unmapped.value <==>
         (c in Headers(s.df) &&
          forall i, j :: 0 <= i < |targets| && 0 <= j < |targets[i].1| ==> Upper(targets[i].1[j]) != Upper(c))) &&
      (c in Important(a.unmapped.value) ==> c in a.unmapped.value)
  {
    AllVariantsMember(targets, Upper(c));
  }

  /** The loop over one target's variants. */
  method FindSources(df: Frame, cmu: map<string, nat>, n: nat, vs: seq<string>) returns (found: seq<FoundSource>)
    requires IndexesInto(cmu, df)
    ensures found == FoundSources(df, cmu, n, vs)
  {
    found := [];
    var j := 0;
    while j < |vs|
      invariant 0 <= j <= |vs|
      invariant found == FoundSources(df, cmu, n, vs[..j])
    {
      var u := Upper(vs[j]);
      if u in cmu {
        found := found + [SourceAt(df, cmu[u], n)];
      }
      Seqs.PrefixStep(vs, j);
      j := j + 1;
    }
    Seqs.WholePrefix(vs, j);
  }

  /** The loop over the targets: each target's mapping is recorded and its issue, if any, appended. */
  method MapTargets(df: Frame, cmu: map<string, nat>, n: nat, targets: seq<(string, seq<string>)>)
    returns (issues: seq<Issue>, mapping: map<string, TargetMapping>)
    requires IndexesInto(cmu, df)
    ensures issues == TargetIssues(df, cmu, n, targets)
    ensures mapping == TargetMappings(df, cmu, n, targets)
  {
    issues, mapping := [], map[];
    var i := 0;
    while i < |targets|
      invariant 0 <= i <= |targets|
      invariant issues == TargetIssues(df, cmu, n, targets[..i])
      invariant mapping == TargetMappings(df, cmu, n, targets[..i])
    {
      var target := targets[i].0;
      var found := FindSources(df, cmu, n, targets[i].1);
      mapping := mapping[target := MappingOf(found)];
      match Classify(target, found) {
        case Some(issue) => issues := issues + [issue];
        case None =>
      }
      Seqs.PrefixStep(targets, i);
      i := i + 1;
    }
    Seqs.WholePrefix(targets, i);
  }

  /** The unmapped-column comprehension, as a loop over the headers. */
  method UnmappedColumns(columns: seq<string>, mapped: set<string>) returns (unmapped: seq<string>)
    ensures unmapped == Unmapped(columns, mapped)
  {
    unmapped := [];
    var j := 0;
    while j < |columns|
      invariant 0 <= j <= |columns|
      invariant unmapped == Unmapped(columns[..j], mapped)
    {
      if Upper(columns[j]) !in mapped {
        unmapped := unmapped + [columns[j]];
      }
      Seqs.PrefixStep(columns, j);
      j := j + 1;
    }
    Seqs.WholePrefix(columns, j);
  }

  /** analyze_file: discover every target's sources, raise its issues, then list the unmapped columns. */
  method AnalyzeFile(filename: string, stem: string, sample: Option<Sample>, err: string,
                     targets: seq<(string, seq<string>)>) returns (a: FileAnalysis)
    ensures a == Analysis(filename, stem, sample, err, targets)
  {
    var ym := ReleaseNames.ExtractYearMonth(stem);
    if sample.None? {
      return FileAnalysis(filename, ym.0, ym.1, None, [], [ReadError(err)], map[], None);
    }
    var s := sample.value;
    var cmu := ColMapUpper(s.df);
    var issues, mapping := MapTargets(s.df, cmu, s.sampleRows, targets);
    var columns := Headers(s.df);
    var unmapped := UnmappedColumns(columns, AllVariants(targets));
    a := FileAnalysis(filename, ym.0, ym.1, Some(s.totalRows), columns,
                      issues + UnmappedIssues(unmapped), mapping, Some(unmapped));
  }

  // ---------------------------------------------------------------------
  // generate_report: tallies over all releases
  // ---------------------------------------------------------------------

  /** mapping.get('will_use') when it is truthy: a present, non-empty source name. */
  function WillUseOf(a: FileAnalysis, target: string): Option<string> {
    if target in a.mapping && a.mapping[target].willUse.Some? && a.mapping[target].willUse.value != []
    then a.mapping[target].willUse else None
  }

  /** The first found source of a target is an empty placeholder. */
  predicate PlaceholderFirst(a: FileAnalysis, target: string) {
    target in a.mapping && a.mapping[target].found != [] && a.mapping[target].found[0].isPlaceholder
  }

  /** sources_used: how many releases use each source for the target. */
  function SourcesUsed(results: seq<FileAnalysis>, target: string): multiset<string> {
    if results == [] then multiset{}
    else
      var used := WillUseOf(results[|results| - 1], target);
      SourcesUsed(results[..|results| - 1], target) + (if used.Some? then multiset{used.value} else multiset{})
  }

  /** missing_count: releases with no source to use for the target. */
  function MissingCount(results: seq<FileAnalysis>, target: string): nat {
    if results == [] then 0
    else MissingCount(results[..|results| - 1], target) + (if WillUseOf(results[|results| - 1], target).None? then 1 else 0)
  }

  /** placeholder_count: releases whose first found source for the target is a placeholder. */
  function PlaceholderCount(results: seq<FileAnalysis>, target: string): nat {
    if results == [] then 0
    else PlaceholderCount(results[..|results| - 1], target) + (if PlaceholderFirst(results[|results| - 1], target) then 1 else 0)
  }

  /** The per-target tally loop of the mapping analysis. */
  method TallyTarget(results: seq<FileAnalysis>, target: string) returns (used: multiset<string>, missing: nat, placeholders: nat)
    ensures used == SourcesUsed(results, target)
    ensures missing == MissingCount(results, target)
    ensures placeholders == PlaceholderCount(results, target)
  {
    used, missing, placeholders := multiset{}, 0, 0;
    var i := 0;
    while i < |results|
      invariant 0 <= i <= |results|
      invariant used == SourcesUsed(results[..i], target)
      invariant missing == MissingCount(results[..i], target)
      invariant placeholders == PlaceholderCount(results[..i], target)
    {
      var r := results[i];
      TallyStep(results, target, i);
      match WillUseOf(r, target) {
        case Some(src) => used := used + multiset{src};
        case None => missing := missing + 1;
      }
      if PlaceholderFirst(r, target) {
        placeholders := placeholders + 1;
      }
      i := i + 1;
    }
    Seqs.WholePrefix(results, i);
  }

  /** One more release of the tally. */
  lemma TallyStep(results: seq<FileAnalysis>, target: string, i: nat)
    requires i < |results|
    ensures var used := WillUseOf(results[i], target);
      && SourcesUsed(results[..i + 1], target) ==
           SourcesUsed(results[..i], target) + (if used.Some? then multiset{used.value} else multiset{})
      && MissingCount(results[..i + 1], target) == MissingCount(results[..i], target) + (if used.None? then 1 else 0)
      && PlaceholderCount(results[..i + 1], target) ==
           PlaceholderCount(results[..i], target) + (if PlaceholderFirst(results[i], target) then 1 else 0)
  {
    Seqs.PrefixStep(results, i);
  }

  /** Every release is counted once per target: under the source it uses, or as missing. */
  lemma {:induction false} TallyTotal(results: seq<FileAnalysis>, target: string)
    ensures |SourcesUsed(results, target)| + MissingCount(results, target) == |results|
  {
    if results != [] {
      TallyTotal(results[..|results| - 1], target);
    }
  }

  /** A release's mapping for a target was built from its found sources, all named. */
  predicate NamedMapping(a: FileAnalysis, target: string) {
    target in a.mapping ==>
      a.mapping[target] == MappingOf(a.mapping[target].found) &&
      forall k :: 0 <= k < |a.mapping[target].found| ==> a.mapping[target].found[k].sourceName != []
  }

  /** A release counted as a placeholder also counts a used source (the placeholder itself). */
  lemma {:induction false} PlaceholdersAreUsed(results: seq<FileAnalysis>, target: string)
    requires forall k :: 0 <= k < |results| ==> NamedMapping(results[k], target)
    ensures PlaceholderCount(results, target) <= |SourcesUsed(results, target)|
  {
    if results != [] {
      var front := results[..|results| - 1];
      assert forall k :: 0 <= k < |front| ==> front[k] == results[k];
      PlaceholdersAreUsed(front, target);
      var last := results[|results| - 1];
      assert NamedMapping(last, target);
      if PlaceholderFirst(last, target) {
        assert last.mapping[target].found[0].sourceName != [];
        assert WillUseOf(last, target).Some?;
      }
    }
  }

  /** The lines an analysis stores for its issues. */
  function Lines(issues: seq<Issue>): (r: seq<string>)
    ensures |r| == |issues| && forall i :: 0 <= i < |issues| ==> r[i] == IssueText(issues[i])
  {
    Seqs.MappedAll(IssueText, issues);
    Seqs.Mapped(IssueText, issues)
  }

  /** The issue lines of one release that fall under type ty, each with the release's file name. */
  function FileOccurrences(filename: string, lines: seq<string>, ty: string): seq<(string, string)>
  {
    if lines == [] then []
    else
      var line := lines[|lines| - 1];
      FileOccurrences(filename, lines[..|lines| - 1], ty) + (if IssueType(line) == ty then [(filename, line)] else [])
  }

  /** issue_types[ty]: the issue lines of type ty over all releases, in release and issue order. */
  function Occurrences(results: seq<FileAnalysis>, ty: string): seq<(string, string)>
  {
    if results == [] then []
    else
      var last := results[|results| - 1];
      Occurrences(results[..|results| - 1], ty) + FileOccurrences(last.filename, Lines(last.issues), ty)
  }

  /** Every line listed under a type has that type. */
  lemma {:induction false} OccurrencesHaveType(results: seq<FileAnalysis>, ty: string, p: (string, string))
    requires p in Occurrences(results, ty)
    ensures IssueType(p.1) == ty
    ensures exists k :: 0 <= k < |results| && results[k].filename == p.0
  {
    var front := results[..|results| - 1];
    var last := results[|results| - 1];
    if p in Occurrences(front, ty) {
      OccurrencesHaveType(front, ty, p);
      var k :| 0 <= k < |front| && front[k].filename == p.0;
      assert results[k] == front[k];
    } else {
      FileOccurrencesHaveType(last.filename, Lines(last.issues), ty, p);
    }
  }

  lemma {:induction false} FileOccurrencesHaveType(filename: string, lines: seq<string>, ty: string, p: (string, string))
    requires p in FileOccurrences(filename, lines, ty)
    ensures p.0 == filename && IssueType(p.1) == ty
  {
    var front := lines[..|lines| - 1];
    if p in FileOccurrences(filename, front, ty) {
      FileOccurrencesHaveType(filename, front, ty, p);
    }
  }

  /** Every issue line of every release is listed under its own type. */
  lemma {:induction false} LineListed(results: seq<FileAnalysis>, k: nat, i: nat)
    requires k < |results| && i < |Lines(results[k].issues)|
    ensures var line := Lines(results[k].issues)[i];
      (results[k].filename, line) in Occurrences(results, IssueType(line))
  {
    var front := results[..|results| - 1];
    var line := Lines(results[k].issues)[i];
    var ty := IssueType(line);
    var pair := (results[k].filename, line);
    OccurrencesLast(results, ty);
    var last := results[|results| - 1];
    assert Occurrences(results, ty) == Occurrences(front, ty) + FileOccurrences(last.filename, Lines(last.issues), ty);
    if k < |front| {
      assert front[k] == results[k];
      LineListed(front, k, i);
      assert pair in Occurrences(front, ty);
    } else {
      assert k == |results| - 1;
      FileLineListed(results[k].filename, Lines(results[k].issues), i);
      assert pair in FileOccurrences(last.filename, Lines(last.issues), ty);
    }
  }

  /** Every issue of every release is listed under its own label. */
  lemma IssueListedUnderKind(results: seq<FileAnalysis>, k: nat, i: nat)
    requires k < |results| && i < |results[k].issues|
    ensures (results[k].filename, IssueText(results[k].issues[i])) in Occurrences(results, KindName(results[k].issues[i]))
  {
    LineListed(results, k, i);
    IssueTypeOfText(results[k].issues[i]);
  }

  lemma OccurrencesLast(results: seq<FileAnalysis>, ty: string)
    requires results != []
    ensures var last := results[|results| - 1];
      Occurrences(results, ty) == Occurrences(results[..|results| - 1], ty) + FileOccurrences(last.filename, Lines(last.issues), ty)
  {
  }

  lemma {:induction false} FileLineListed(filename: string, lines: seq<string>, i: nat)
    requires i < |lines|
    ensures (filename, lines[i]) in FileOccurrences(filename, lines, IssueType(lines[i]))
  {
    if i < |lines| - 1 {
      var front := lines[..|lines| - 1];
      assert front[i] == lines[i];
      FileLineListed(filename, front, i);
    }
  }

  function Lookup(groups: map<string, seq<(string, string)>>, ty: string): seq<(string, string)> {
    if ty in groups then groups[ty] else []
  }

  /** groups[key].append(entry) on a defaultdict of lists. */
  function Append(groups: map<string, seq<(string, string)>>, key: string, entry: (string, string)): (r: map<string, seq<(string, string)>>)
    ensures forall ty :: Lookup(r, ty) == Lookup(groups, ty) + (if ty == key then [entry] else [])
    ensures forall ty :: ty in r ==> ty in groups || ty == key
    ensures key in r
  {
    groups[key := Lookup(groups, key) + [entry]]
  }

  /** Appending keeps every listed type's entries non-empty. */
  lemma AppendNonEmpty(groups: map<string, seq<(string, string)>>, key: string, entry: (string, string))
    requires forall ty :: ty in groups ==> groups[ty] != []
    ensures forall ty :: ty in Append(groups, key, entry) ==> Append(groups, key, entry)[ty] != []
  {
  }

  lemma GroupStep(groups: map<string, seq<(string, string)>>, before: map<string, seq<(string, string)>>,
                  filename: string, lines: seq<string>, j: nat)
    requires j < |lines|
    requires forall ty :: Lookup(before, ty) == Lookup(groups, ty) + FileOccurrences(filename, lines[..j], ty)
    ensures forall ty ::
      Lookup(Append(before, IssueType(lines[j]), (filename, lines[j])), ty) ==
      Lookup(groups, ty) + FileOccurrences(filename, lines[..j + 1], ty)
  {
    forall ty ensures Lookup(Append(before, IssueType(lines[j]), (filename, lines[j])), ty) ==
                      Lookup(groups, ty) + FileOccurrences(filename, lines[..j + 1], ty) {
      GroupStepAt(Lookup(groups, ty), before, filename, lines, j, ty);
    }
  }

  /** The step for one issue type, whose entries before the release are `base`. */
  lemma GroupStepAt(base: seq<(string, string)>, before: map<string, seq<(string, string)>>,
                    filename: string, lines: seq<string>, j: nat, ty: string)
    requires j < |lines|
    requires Lookup(before, ty) == base + FileOccurrences(filename, lines[..j], ty)
    ensures Lookup(Append(before, IssueType(lines[j]), (filename, lines[j])), ty) ==
      base + FileOccurrences(filename, lines[..j + 1], ty)
  {
    var key, entry := IssueType(lines[j]), (filename, lines[j]);
    FileOccurrencesStep(filename, lines, j, ty);
    var added: seq<(string, string)> := if ty == key then [entry] else [];
    assert Lookup(Append(before, key, entry), ty) == Lookup(before, ty) + added;
    assert base + FileOccurrences(filename, lines[..j], ty) + added ==
      base + (FileOccurrences(filename, lines[..j], ty) + added);
  }

  lemma FileOccurrencesStep(filename: string, lines: seq<string>, j: nat, ty: string)
    requires j < |lines|
    ensures FileOccurrences(filename, lines[..j + 1], ty) ==
      FileOccurrences(filename, lines[..j], ty) + (if IssueType(lines[j]) == ty then [(filename, lines[j])] else [])
  {
    Seqs.PrefixStep(lines, j);
  }

  /** One release's issue lines appended, each under the text before its first colon. */
  method GroupFileIssues(groups: map<string, seq<(string, string)>>, filename: string, lines: seq<string>)
    returns (groups': map<string, seq<(string, string)>>)
    requires forall ty :: ty in groups ==> groups[ty] != []
    ensures forall ty :: Lookup(groups', ty) == Lookup(groups, ty) + FileOccurrences(filename, lines, ty)
    ensures forall ty :: ty in groups' ==> groups'[ty] != []
  {
    groups' := groups;
    var j := 0;
    while j < |lines|
      invariant 0 <= j <= |lines|
      invariant forall ty :: Lookup(groups', ty) == Lookup(groups, ty) + FileOccurrences(filename, lines[..j], ty)
      invariant forall ty :: ty in groups' ==> groups'[ty] != []
    {
      GroupStep(groups, groups', filename, lines, j);
      AppendNonEmpty(groups', IssueType(lines[j]), (filename, lines[j]));
      groups' := Append(groups', IssueType(lines[j]), (filename, lines[j]));
      j := j + 1;
    }
    assert lines[..|lines|] == lines;
  }

  /** The issue_types grouping loop over all releases. */
  method GroupIssues(results: seq<FileAnalysis>) returns (groups: map<string, seq<(string, string)>>)
    ensures forall ty :: Lookup(groups, ty) == Occurrences(results, ty)
    ensures forall ty :: ty in groups ==> groups[ty] != []
  {
    groups := map[];
    var i := 0;
    while i < |results|
      invariant 0 <= i <= |results|
      invariant forall ty :: Lookup(groups, ty) == Occurrences(results[..i], ty)
      invariant forall ty :: ty in groups ==> groups[ty] != []
    {
      groups := GroupFileIssues(groups, results[i].filename, Lines(results[i].issues));
      Seqs.PrefixStep(results, i);
      i := i + 1;
    }
    Seqs.WholePrefix(results, i);
  }

  /** missing_critical: release and target pairs, over the critical targets, with no source to use. */
  function CriticalMissingIn(a: FileAnalysis, critical: seq<string>): nat {
    if critical == [] then 0
    else CriticalMissingIn(a, critical[..|critical| - 1]) + (if WillUseOf(a, critical[|critical| - 1]).None? then 1 else 0)
  }

  function MissingCritical(results: seq<FileAnalysis>, critical: seq<string>): nat {
    if results == [] then 0
    else MissingCritical(results[..|results| - 1], critical) + CriticalMissingIn(results[|results| - 1], critical)
  }

  /** The missing counts of the critical targets, added up. */
  function MissingByTarget(results: seq<FileAnalysis>, critical: seq<string>): nat {
    if critical == [] then 0
    else MissingByTarget(results, critical[..|critical| - 1]) + MissingCount(results, critical[|critical| - 1])
  }

  /** The critical-problem count agrees with the per-target missing counts of the mapping analysis. */
  lemma {:induction false} MissingCriticalByTarget(results: seq<FileAnalysis>, critical: seq<string>)
    ensures MissingCritical(results, critical) == MissingByTarget(results, critical)
  {
    if results != [] {
      MissingCriticalByTarget(results[..|results| - 1], critical);
      MissingByTargetStep(results, critical);
    } else {
      MissingByTargetEmpty(critical);
    }
  }

  lemma {:induction false} MissingByTargetEmpty(critical: seq<string>)
    ensures MissingByTarget([], critical) == 0
  {
    if critical != [] {
      MissingByTargetEmpty(critical[..|critical| - 1]);
    }
  }

  lemma {:induction false} MissingByTargetStep(results: seq<FileAnalysis>, critical: seq<string>)
    requires results != []
    ensures MissingByTarget(results, critical) ==
      MissingByTarget(results[..|results| - 1], critical) + CriticalMissingIn(results[|results| - 1], critical)
  {
    if critical != [] {
      MissingByTargetStep(results, critical[..|critical| - 1]);
    }
  }

  /** Releases that raised at least one issue. */
  function FilesWithIssues(results: seq<FileAnalysis>): (n: nat)
    ensures n <= |results|
  {
    if results == [] then 0
    else FilesWithIssues(results[..|results| - 1]) + (if results[|results| - 1].issues != [] then 1 else 0)
  }

  /** Releases whose year could not be detected (`not year`: none, or zero). */
  function YearIssues(results: seq<FileAnalysis>): (n: nat)
    ensures n <= |results|
  {
    if results == [] then 0
    else
      var y := results[|results| - 1].year;
      YearIssues(results[..|results| - 1]) + (if y.None? || y == Some(0) then 1 else 0)
  }

  /** A release that cannot be read always counts among the releases with issues. */
  lemma {:induction false} UnreadableHaveIssues(results: seq<FileAnalysis>)
    ensures FilesWithIssues(results) >= ReadErrors(results)
  {
    if results != [] {
      UnreadableHaveIssues(results[..|results| - 1]);
    }
  }

  /** Releases with a READ_ERROR issue first. */
  function ReadErrors(results: seq<FileAnalysis>): nat {
    if results == [] then 0
    else
      var last := results[|results| - 1];
      ReadErrors(results[..|results| - 1]) + (if last.issues != [] && last.issues[0].ReadError? then 1 else 0)
  }
}

