/**
 * The variable inventory: over every raw survey file, which variables
 * appear, in how many files and in which years, where their coverage
 * has temporal gaps, and which harmonized target each one feeds.
 */
module VariableInventory {
  import opened Wrappers
  import opened Text
  import Seqs

  /** The 2024 target schema the inventory marks variables against. */
  const TargetSchema: seq<string> := [
    "PUFREG", "PUFHHNUM", "HHMEM", "PUFPWGTPRV", "PUFSVYMO", "PUFSVYYR",
    "PUFPSU", "PUFRPL", "PUFHHSIZE", "PUFC01_LNO", "PUFC03_REL", "PUFC04_SEX",
    "PUFC05_AGE", "PUFC06_MSTAT", "PUFC07_GRADE", "PUFC08_CURSCH", "PUFC09_GRADTECH", "PUFC09A_NFORMAL",
    "PUFC10_CONWR", "PUFC11_WORK", "PUFC11A_ARRANGEMENT", "PUFC12_JOB", "PUFC12A_PROVMUN", "PUFC14_PROCC",
    "PUFC16_PKB", "PUFC17_NATEM", "PUFC18_PNWHRS", "PUFC19_PHOURS", "PUFC20_PWMORE", "PUFC21_PLADDW",
    "PUFC22_PFWRK", "PUFC23_PCLASS", "PUFC24_PBASIS", "PUFC25_PBASIC", "PUFC26_OJOB", "PUFC27_NJOBS",
    "PUFC28_THOURS", "PUFC29_WWM48H", "PUFC30_LOOKW", "PUFC31_FLWRK", "PUFC32_JOBSM", "PUFC33_WEEKS",
    "PUFC34_WYNOT", "PUFC35_LTLOOKW", "PUFC36_AVAIL", "PUFC37_WILLING", "PUFC38_PREVJOB", "PUFC39_YEAR",
    "PUFC39_MONTH", "PUFC41_POCC", "PUFC43_QKB", "PUFNEWEMPSTAT"]


  /** The harmonizer's priority table, as (target, variants) pairs in table order. */
  const InventoryPriority: seq<(string, seq<string>)> := [
    ("PUFREG", ["PUFREG", "CREG", "REG"]),
    ("PUFSVYYR", ["PUFSVYYR", "SVYYR", "CYEAR"]),
    ("PUFSVYMO", ["PUFSVYMO", "SVYMO", "CMONTH"]),
    ("PUFHHNUM", ["PUFHHNUM", "HHNUM"]),
    ("PUFPSU", ["PUFPSU", "PSU", "PSU_NO", "STRATUM"]),
    ("PUFHHSIZE", ["PUFHHSIZE", "HHID"]),
    ("PUFRPL", ["PUFRPL", "CRPM"]),
    ("PUFPWGTPRV", ["PUFPWGTPRV", "PUFPWGT", "PUFPWGTFIN", "CFWGT", "FWGT", "PWGT"]),
    ("PUFC01_LNO", ["PUFC01_LNO", "C101_LNO", "CC101_LNO", "C04_LNO", "A01_LNO"]),
    ("PUFC03_REL", ["PUFC03_REL", "C05_REL", "CC05_REL", "C03_NEWMEM", "CC03_NEWMEM"]),
    ("PUFC04_SEX", ["PUFC04_SEX", "C06_SEX", "CC06_SEX"]),
    ("PUFC05_AGE", ["PUFC05_AGE", "C07_AGE", "CC07_AGE"]),
    ("PUFC06_MSTAT", ["PUFC06_MSTAT", "C08_MSTAT", "C08_MS", "CC08_MSTAT", "CC08_MS"]),
    ("PUFC07_GRADE", ["PUFC07_GRADE", "J12C09_GRADE", "C09_GRD", "C09_GRADE", "CC09_GRADE"]),
    ("PUFC08_CURSCH", ["PUFC08_CURSCH", "A02_CURSCH", "A02_CSCH"]),
    ("PUFC09_GRADTECH", ["PUFC09_GRADTECH", "J12C11_GRADTECH", "J12C11COURSE"]),
    ("PUFC10_CONWR", ["PUFC10_CONWR", "PUFC08_CONWR", "C10_CONWR", "C10_CNWR", "CC10_CONWR"]),
    ("PUFC11_WORK", ["PUFC11_WORK", "PUFC09_WORK", "C13_WORK", "CC13_WORK", "CC01_WORK", "B01_WORK"]),
    ("PUFC12_JOB", ["PUFC12_JOB", "PUFC10_JOB", "C14_JOB", "CC14_JOB", "CC02_JOB", "B02_JOB"]),
    ("PUFNEWEMPSTAT", ["PUFNEWEMPSTAT", "NEWEMPSTAT", "CEMPST1", "CEMPST2", "NEWEMPST"]),
    ("PUFC14_PROCC", ["PUFC14_PROCC", "PUFC13_PROCC", "C16_PROCC", "C16_PROC", "CC16_PROCC", "C16F2_PROCC", "C16L2_PROCC", "CC12_USOCC", "J01_USOCC", "J01_USOC"]),
    ("PUFC16_PKB", ["PUFC16_PKB", "PUFC15_PKB", "C18_PKB", "CC18_PKB", "C18F2_PKB", "C18L2_PKB", "CC06_IND", "J03_OKB"]),
    ("PUFC17_NATEM", ["PUFC17_NATEM", "PUFC16_NATEM", "C20_NATEM", "C20_NTEM", "CC20_NATEM"]),
    ("PUFC18_PNWHRS", ["PUFC18_PNWHRS", "PUFC17_PNWHRS", "C21_PNWHRS", "C21_PWHR", "CC21_PNWHRS", "CC18_PNWHRS"]),
    ("PUFC19_PHOURS", ["PUFC19_PHOURS", "PUFC18_PHOURS", "C22_PHOURS", "C22_PHRS", "CC22_PHOURS"]),
    ("PUFC20_PWMORE", ["PUFC20_PWMORE", "PUFC19_PWMORE", "C23_PWMORE", "C23_PWMR", "CC23_PWMORE"]),
    ("PUFC21_PLADDW", ["PUFC21_PLADDW", "PUFC20_PLADDW", "C24_PLADDW", "C24_PLAW", "CC24_PLADDW"]),
    ("PUFC22_PFWRK", ["PUFC22_PFWRK", "PUFC20B_FTWORK", "C25_PFWRK", "C25_PFWK", "CC25_PFWRK"]),
    ("PUFC23_PCLASS", ["PUFC23_PCLASS", "PUFC21_PCLASS", "C19_PCLASS", "C19PCLAS", "CC19_PCLASS"]),
    ("PUFC24_PBASIS", ["PUFC24_PBASIS", "C26_PBASIS", "C26_PBIS", "CC26_PBASIS"]),
    ("PUFC25_PBASIC", ["PUFC25_PBASIC", "C27_PBASIC", "C27_PBSC", "CC27_PBASIC", "C36_OBASIC", "C36_OBIC"]),
    ("PUFC26_OJOB", ["PUFC26_OJOB", "PUFC22_OJOB", "C28_OJOB", "CC28_OJOB"]),
    ("PUFC27_NJOBS", ["PUFC27_NJOBS", "A03_JOBS"]),
    ("PUFC28_THOURS", ["PUFC28_THOURS", "PUFC23_THOURS", "A04_THOURS", "A04_THRS"]),
    ("PUFC29_WWM48H", ["PUFC29_WWM48H", "PUFC24_WWM48H", "A05_RWM48H", "A05_R48H"]),
    ("PUFC30_LOOKW", ["PUFC30_LOOKW", "PUFC25_LOOKW", "C38_LOOKW", "C38_LOKW", "CC38_LOOKW", "CC30_LOOKW"]),
    ("PUFC31_FLWRK", ["PUFC31_FLWRK", "PUFC25B_FTWORK", "C41_FLWRK", "C41_FLWK", "CC41_FLWRK"]),
    ("PUFC32_JOBSM", ["PUFC32_JOBSM", "C39_JOBSM", "C39_JBSM", "CC39_JOBSM", "CC32_JOBSM"]),
    ("PUFC33_WEEKS", ["PUFC33_WEEKS", "C40_WEEKS", "C40_WKS", "CC40_WEEKS", "CC33_WEEKS"]),
    ("PUFC34_WYNOT", ["PUFC34_WYNOT", "PUFC26_WYNOT", "C42_WYNOT", "C42_WYNT", "CC42_WYNOT"]),
    ("PUFC35_LTLOOKW", ["PUFC35_LTLOOKW", "A06_LTLOOKW", "A06_LLKW", "CC35_LTLOOKW"]),
    ("PUFC36_AVAIL", ["PUFC36_AVAIL", "PUFC27_AVAIL", "C37_AVAIL", "C37_AVIL", "CC37_AVAIL", "CC36_AVAIL"]),
    ("PUFC37_WILLING", ["PUFC37_WILLING", "A07_WILLING", "A07_WLNG"]),
    ("PUFC38_PREVJOB", ["PUFC38_PREVJOB", "PUFC28_PREVJOB", "C43_LBEF", "CC43_LBEF"]),
    ("PUFC39_YEAR", ["PUFC39_YEAR", "PUFC29_YEAR"]),
    ("PUFC39_MONTH", ["PUFC39_MONTH", "PUFC29_MONTH"]),
    ("PUFC41_POCC", ["PUFC41_POCC", "PUFC40_POCC", "PUFC31_POCC", "C45_POCC", "CC45_POCC", "C45F2_POCC", "C45L2_POCC", "CC10_POCC"]),
    ("PUFC43_QKB", ["PUFC43_QKB", "PUFC33_QKB", "A09_PQKB", "A09F2_PQKB", "A09L2_PQKB", "PQKB", "QKB"])]

  // ---------------------------------------------------------------------
  // build_reverse_map
  // ---------------------------------------------------------------------

  /** reverse[src.upper()] = target for every variant of one target. */
  function AddVariants(m: map<string, string>, target: string, sources: seq<string>): map<string, string> {
    if sources == [] then m
    else AddVariants(m, target, sources[..|sources| - 1])[Upper(sources[|sources| - 1]) := target]
  }

  /** The reverse map built over the pairs in order. */
  function ReverseMap(priority: seq<(string, seq<string>)>): map<string, string> {
    if priority == [] then map[]
    else
      var (target, sources) := priority[|priority| - 1];
      AddVariants(ReverseMap(priority[..|priority| - 1]), target, sources)
  }

  /** Some variant of the list upper-cases to `k`. */
  predicate UpperIn(k: string, sources: seq<string>) {
    exists j :: 0 <= j < |sources| && Upper(sources[j]) == k
  }

  /** Adding one target's variants maps exactly their upper-cased forms to it and leaves every other key alone. */
  lemma {:induction false} AddVariantsAt(m: map<string, string>, target: string, sources: seq<string>, k: string)
    ensures k in AddVariants(m, target, sources) <==> k in m || UpperIn(k, sources)
    ensures UpperIn(k, sources) ==> AddVariants(m, target, sources)[k] == target
    ensures !UpperIn(k, sources) && k in m ==> AddVariants(m, target, sources)[k] == m[k]
  {
    if sources != [] {
      var front := sources[..|sources| - 1];
      AddVariantsAt(m, target, front, k);
      if UpperIn(k, sources) && !UpperIn(k, front) {
        assert Upper(sources[|sources| - 1]) == k;
      }
      if UpperIn(k, front) {
        var j :| 0 <= j < |front| && Upper(front[j]) == k;
        assert sources[j] == front[j];
      }
    }
  }

  /** The keys of the reverse map are exactly the upper-cased variants of the table. */
  lemma {:induction false} ReverseMapKeys(priority: seq<(string, seq<string>)>, k: string)
    ensures k in ReverseMap(priority) <==> exists i :: 0 <= i < |priority| && UpperIn(k, priority[i].1)
  {
    if priority != [] {
      var front := priority[..|priority| - 1];
      ReverseMapKeys(front, k);
      AddVariantsAt(ReverseMap(front), priority[|priority| - 1].0, priority[|priority| - 1].1, k);
      if exists i :: 0 <= i < |priority| && UpperIn(k, priority[i].1) {
        var i :| 0 <= i < |priority| && UpperIn(k, priority[i].1);
        if i < |front| {
          assert front[i] == priority[i];
        }
      }
      if exists i :: 0 <= i < |front| && UpperIn(k, front[i].1) {
        var i :| 0 <= i < |front| && UpperIn(k, front[i].1);
        assert priority[i] == front[i];
      }
    }
  }

  /**
   * A variant maps to the last target in table order whose list holds it:
   * when pair i lists it and no later pair does, it maps to pair i's target.
   */
  lemma {:induction false} ReverseMapLastWins(priority: seq<(string, seq<string>)>, i: nat, k: string)
    requires i < |priority| && UpperIn(k, priority[i].1)
    requires forall j :: i < j < |priority| ==> !UpperIn(k, priority[j].1)
    ensures k in ReverseMap(priority) && ReverseMap(priority)[k] == priority[i].0
  {
    var front := priority[..|priority| - 1];
    var last := priority[|priority| - 1];
    AddVariantsAt(ReverseMap(front), last.0, last.1, k);
    if i < |front| {
      forall j | i < j < |front| ensures !UpperIn(k, front[j].1) {
        assert front[j] == priority[j];
      }
      assert front[i] == priority[i];
      ReverseMapLastWins(front, i, k);
    }
  }

  /** build_reverse_map: the nested loop filling the dictionary. */
  method BuildReverseMap(priority: seq<(string, seq<string>)>) returns (reverse: map<string, string>)
    ensures reverse == ReverseMap(priority)
  {
    reverse := map[];
    var i := 0;
    while i < |priority|
      invariant 0 <= i <= |priority|
      invariant reverse == ReverseMap(priority[..i])
    {
      var (target, sources) := priority[i];
      var before := reverse;
      var j := 0;
      while j < |sources|
        invariant 0 <= j <= |sources|
        invariant reverse == AddVariants(before, target, sources[..j])
      {
        reverse := reverse[Upper(sources[j]) := target];
        Seqs.PrefixStep(sources, j);
        j := j + 1;
      }
      Seqs.WholePrefix(sources, j);
      Seqs.PrefixStep(priority, i);
      i := i + 1;
    }
    Seqs.WholePrefix(priority, i);
  }

  // ---------------------------------------------------------------------
  // detect_gaps
  // ---------------------------------------------------------------------

  predicate Least(years: set<int>, y: int) {
    y in years && forall z :: z in years ==> y <= z
  }

  predicate Greatest(years: set<int>, y: int) {
    y in years && forall z :: z in years ==> z <= y
  }

  /** The first and last of the sorted years. */
  method Bounds(years: set<int>) returns (lo: int, hi: int)
    requires years != {}
    ensures Least(years, lo) && Greatest(years, hi)
  {
    if forall z :: z !in years {
      assert false;
    }
    var x :| x in years;
    lo, hi := x, x;
    var rest := years - {x};
    while rest != {}
      invariant rest <= years && lo in years && hi in years
      invariant forall z :: z in years && z !in rest ==> lo <= z <= hi
      decreases |rest|
    {
      if forall z :: z !in rest {
        assert false;
      }
      var y :| y in rest;
      if y < lo {
        lo := y;
      }
      if y > hi {
        hi := y;
      }
      rest := rest - {y};
    }
  }

  /** sorted(set(range(lo, hi + 1)) - years): the absent years of the range, ascending. */
  function MissingYears(years: set<int>, lo: int, hi: int): (r: seq<int>)
    ensures forall y :: y in r <==> lo <= y <= hi && y !in years
    ensures Increasing(r)
    decreases hi - lo
  {
    if hi < lo then []
    else
      var rest := MissingYears(years, lo + 1, hi);
      assert forall j :: 0 <= j < |rest| ==> lo < rest[j] by {
        forall j | 0 <= j < |rest| ensures lo < rest[j] {
          assert rest[j] in rest;
        }
      }
      (if lo in years then [] else [lo]) + rest
  }

  predicate Increasing(ys: seq<int>) {
    forall i, j :: 0 <= i < j < |ys| ==> ys[i] < ys[j]
  }

  /** The missing years grouped into (start, end) runs, as the grouping loop forms them. */
  function Runs(ys: seq<int>): (r: seq<(int, int)>)
    ensures ys == [] <==> r == []
  {
    if ys == [] then []
    else if |ys| == 1 then [(ys[0], ys[0])]
    else
      var prev := Runs(ys[..|ys| - 1]);
      var y := ys[|ys| - 1];
      var last := prev[|prev| - 1];
      if y == last.1 + 1 then prev[..|prev| - 1] + [(last.0, y)] else prev + [(y, y)]
  }

  /** Some run contains the year. */
  predicate Covered(runs: seq<(int, int)>, y: int) {
    exists k :: 0 <= k < |runs| && runs[k].0 <= y <= runs[k].1
  }

  /** Runs that are non-empty, ascending, and separated by at least one year. */
  predicate Separated(runs: seq<(int, int)>) {
    (forall k :: 0 <= k < |runs| ==> runs[k].0 <= runs[k].1) &&
    (forall k :: 0 <= k < |runs| - 1 ==> runs[k].1 + 1 < runs[k + 1].0)
  }

  /**
   * Runs of an ascending list are ascending, each non-empty, separated by
   * at least one absent year, and the last run ends at the last year.
   */
  lemma {:induction false} RunsSeparated(ys: seq<int>)
    requires Increasing(ys)
    ensures Separated(Runs(ys))
    ensures ys != [] ==> Runs(ys)[|Runs(ys)| - 1].1 == ys[|ys| - 1]
  {
    if |ys| > 1 {
      var front := ys[..|ys| - 1];
      var y := ys[|ys| - 1];
      RunsSeparated(front);
      var prev := Runs(front);
      var n := |prev| - 1;
      var last := prev[n];
      assert last.1 == front[|front| - 1] < y;
      var r := Runs(ys);
      if y == last.1 + 1 {
        assert r == prev[..n] + [(last.0, y)];
        forall k | 0 <= k < |r| - 1 ensures r[k].1 + 1 < r[k + 1].0 {
          assert r[k] == prev[k];
          if k + 1 < n {
            assert r[k + 1] == prev[k + 1];
          } else {
            assert r[k + 1].0 == prev[k + 1].0;
          }
        }
      } else {
        assert r == prev + [(y, y)];
        forall k | 0 <= k < |r| - 1 ensures r[k].1 + 1 < r[k + 1].0 {
          assert r[k] == prev[k];
        }
      }
    }
  }

  /** A year lies in some run exactly when it is listed: the runs lose and add no year. */
  lemma {:induction false} RunsCover(ys: seq<int>, z: int)
    requires Increasing(ys)
    ensures z in ys <==> Covered(Runs(ys), z)
  {
    if |ys| == 1 {
      assert Runs(ys)[0] == (ys[0], ys[0]);
      if z in ys {
        assert Runs(ys)[0].0 <= z <= Runs(ys)[0].1;
      }
    } else if |ys| > 1 {
      var front := ys[..|ys| - 1];
      var y := ys[|ys| - 1];
      RunsCover(front, z);
      RunsSeparated(front);
      var prev := Runs(front);
      var last := prev[|prev| - 1];
      var r := Runs(ys);
      assert z in ys <==> z in front || z == y;
      if y == last.1 + 1 {
        CoverExtended(prev, r, y, z);
      } else {
        CoverAppended(prev, y, z);
      }
    }
  }

  /** A new run of one year covers what was covered plus that year. */
  lemma CoverAppended(prev: seq<(int, int)>, y: int, z: int)
    ensures Covered(prev + [(y, y)], z) <==> Covered(prev, z) || z == y
  {
    var r := prev + [(y, y)];
    if Covered(prev, z) {
      var k :| 0 <= k < |prev| && prev[k].0 <= z <= prev[k].1;
      assert r[k] == prev[k];
    }
    if z == y {
      assert r[|prev|] == (y, y);
    }
    if Covered(r, z) {
      var k :| 0 <= k < |r| && r[k].0 <= z <= r[k].1;
      if k < |prev| {
        assert prev[k] == r[k];
      }
    }
  }

  /** Extending the last run by one year covers what was covered plus that year. */
  lemma CoverExtended(prev: seq<(int, int)>, r: seq<(int, int)>, y: int, z: int)
    requires prev != [] && y == prev[|prev| - 1].1 + 1
    requires prev[|prev| - 1].0 <= prev[|prev| - 1].1
    requires r == prev[..|prev| - 1] + [(prev[|prev| - 1].0, y)]
    ensures Covered(r, z) <==> Covered(prev, z) || z == y
  {
    var n := |prev| - 1;
    if Covered(prev, z) {
      var k :| 0 <= k < |prev| && prev[k].0 <= z <= prev[k].1;
      if k < n {
        assert r[k] == prev[k];
      } else {
        assert r[n].0 <= z <= r[n].1;
      }
    }
    if z == y {
      assert r[n].0 <= z <= r[n].1;
    }
    if Covered(r, z) {
      var k :| 0 <= k < |r| && r[k].0 <= z <= r[k].1;
      if k < n {
        assert prev[k] == r[k];
      } else if z != y {
        assert prev[n].0 <= z <= prev[n].1;
      }
    }
  }

  /** One more year either extends the last run or opens a new one. */
  lemma RunsStep(ys: seq<int>, i: nat)
    requires 1 <= i < |ys|
    ensures var prev := Runs(ys[..i]);
      prev != [] &&
      Runs(ys[..i + 1]) ==
        if ys[i] == prev[|prev| - 1].1 + 1 then prev[..|prev| - 1] + [(prev[|prev| - 1].0, ys[i])]
        else prev + [(ys[i], ys[i])]
  {
    Seqs.PrefixStep(ys, i);
    assert ys[..i + 1][i] == ys[i];
  }

  /** The loop's step: the closed runs and the open run (start, end) absorb one more year. */
  lemma GroupStep(ys: seq<int>, i: nat, ranges: seq<(int, int)>, start: int, end: int)
    requires 1 <= i < |ys|
    requires ranges + [(start, end)] == Runs(ys[..i])
    ensures Runs(ys[..i + 1]) ==
      if ys[i] == end + 1 then ranges + [(start, ys[i])] else ranges + [(start, end)] + [(ys[i], ys[i])]
  {
    RunsStep(ys, i);
    var prev := ranges + [(start, end)];
    assert prev[..|prev| - 1] == ranges && prev[|prev| - 1] == (start, end);
  }

  /** The first year alone is one run. */
  lemma RunsFirst(ys: seq<int>)
    requires ys != []
    ensures [] + [(ys[0], ys[0])] == Runs(ys[..1])
  {
  }

  /** The grouping loop over the missing years. */
  method GroupRuns(missing: seq<int>) returns (ranges: seq<(int, int)>)
    requires missing != []
    ensures ranges == Runs(missing)
  {
    var start, end := missing[0], missing[0];
    ranges := [];
    RunsFirst(missing);
    var i := 1;
    while i < |missing|
      invariant 1 <= i <= |missing|
      invariant ranges + [(start, end)] == Runs(missing[..i])
    {
      var y := missing[i];
      GroupStep(missing, i, ranges, start, end);
      if y == end + 1 {
        end := y;
      } else {
        ranges := ranges + [(start, end)];
        start, end := y, y;
      }
      i := i + 1;
    }
    Seqs.WholePrefix(missing, i);
    ranges := ranges + [(start, end)];
  }

  /** One run as text: "s", or "s-e" when it spans several years. */
  function RunText(run: (int, int)): string {
    if run.0 == run.1 then IntToString(run.0) else IntToString(run.0) + "-" + IntToString(run.1)
  }

  function RunTexts(runs: seq<(int, int)>): (r: seq<string>)
    ensures |r| == |runs| && forall k :: 0 <= k < |runs| ==> r[k] == RunText(runs[k])
  {
    if runs == [] then [] else RunTexts(runs[..|runs| - 1]) + [RunText(runs[|runs| - 1])]
  }

  /** The detail text for the years between lo and hi. */
  function GapText(years: set<int>, lo: int, hi: int): string {
    "missing: " + Join(", ", RunTexts(Runs(MissingYears(years, lo, hi))))
  }

  /** Some year strictly between two listed years is absent. */
  predicate HasGap(years: set<int>) {
    exists a, b, y :: a in years && b in years && a < y < b && y !in years
  }

  /** A set with two distinct members has at least two elements. */
  lemma TwoMembers(s: set<int>, a: int, b: int)
    requires a in s && b in s && a != b
    ensures |s| >= 2
  {
    var rest := s - {a};
    assert b in rest;
    assert s == rest + {a};
    assert |rest| >= 1;
  }

  /** Fewer than two years leave no room for a gap. */
  lemma FewYearsNoGap(years: set<int>)
    requires |years| <= 1
    ensures !HasGap(years)
  {
    if HasGap(years) {
      var a, b, y :| a in years && b in years && a < y < b && y !in years;
      TwoMembers(years, a, b);
      assert false;
    }
  }

  /**
   * detect_gaps: no gap for fewer than two years; otherwise a gap exactly
   * when some year strictly inside the covered span is absent, described
   * by the runs of absent years between the first and the last year.
   */
  method DetectGaps(years: set<int>) returns (hasGaps: bool, details: string)
    ensures hasGaps <==> HasGap(years)
    ensures !hasGaps ==> details == ""
    ensures forall lo, hi :: Least(years, lo) && Greatest(years, hi) && hasGaps ==> details == GapText(years, lo, hi)
  {
    if |years| <= 1 {
      FewYearsNoGap(years);
      return false, "";
    }
    var lo, hi := Bounds(years);
    var missing := MissingYears(years, lo, hi);
    if missing == [] {
      return false, "";
    }
    assert missing[0] in missing;
    var ranges := GroupRuns(missing);
    hasGaps := true;
    details := "missing: " + Join(", ", RunTexts(ranges));
    forall l, h | Least(years, l) && Greatest(years, h) ensures l == lo && h == hi {
    }
  }

  /**
   * The runs described cover exactly the absent years between the first
   * and last year, in ascending, separated runs.
   */
  lemma GapRunsExact(years: set<int>, lo: int, hi: int)
    ensures Separated(Runs(MissingYears(years, lo, hi)))
    ensures forall y :: Covered(Runs(MissingYears(years, lo, hi)), y) <==> lo <= y <= hi && y !in years
  {
    var missing := MissingYears(years, lo, hi);
    RunsSeparated(missing);
    forall y ensures Covered(Runs(missing), y) <==> lo <= y <= hi && y !in years {
      RunsCover(missing, y);
    }
  }

  // ---------------------------------------------------------------------
  // File discovery
  // ---------------------------------------------------------------------

  /** Some earlier kept name has the same lower-cased form. */
  predicate SeenLower(kept: seq<string>, name: string) {
    exists j :: 0 <= j < |kept| && Lower(kept[j]) == Lower(name)
  }

  /** The file names kept after case-insensitive de-duplication, first seen first. */
  function DedupByLower(names: seq<string>): seq<string> {
    if names == [] then []
    else
      var kept := DedupByLower(names[..|names| - 1]);
      var name := names[|names| - 1];
      if SeenLower(kept, name) then kept else kept + [name]
  }

  /** Every kept name is a given name, and no two kept names agree once lower-cased. */
  lemma {:induction false} DedupDistinct(names: seq<string>)
    ensures forall j :: 0 <= j < |DedupByLower(names)| ==> DedupByLower(names)[j] in names
    ensures forall i, j :: 0 <= i < j < |DedupByLower(names)| ==> Lower(DedupByLower(names)[i]) != Lower(DedupByLower(names)[j])
  {
    if names != [] {
      var front := names[..|names| - 1];
      DedupDistinct(front);
      assert forall j :: 0 <= j < |front| ==> front[j] in names;
    }
  }

  /** Every given name has a kept name with the same lower-cased form. */
  lemma {:induction false} DedupCovers(names: seq<string>, i: nat)
    requires i < |names|
    ensures SeenLower(DedupByLower(names), names[i])
  {
    var front := names[..|names| - 1];
    var kept := DedupByLower(front);
    if i < |front| {
      DedupCovers(front, i);
      assert names[i] == front[i];
      var j :| 0 <= j < |kept| && Lower(kept[j]) == Lower(front[i]);
      assert DedupByLower(names)[j] == kept[j];
    } else if !SeenLower(kept, names[i]) {
      assert DedupByLower(names)[|kept|] == names[i];
    }
  }

  /** The first name of each lower-cased form is the one kept. */
  lemma {:induction false} DedupKeepsFirst(names: seq<string>, i: nat)
    requires i < |names|
    requires forall j :: 0 <= j < i ==> Lower(names[j]) != Lower(names[i])
    ensures names[i] in DedupByLower(names)
  {
    var front := names[..|names| - 1];
    var kept := DedupByLower(front);
    if i < |front| {
      assert names[i] == front[i];
      assert forall j :: 0 <= j < i ==> front[j] == names[j];
      DedupKeepsFirst(front, i);
    } else if SeenLower(kept, names[i]) {
      var j :| 0 <= j < |kept| && Lower(kept[j]) == Lower(names[i]);
      DedupDistinct(front);
    }
  }

  /** The lower-cased forms of the kept names. */
  function LowerSet(kept: seq<string>): set<string> {
    if kept == [] then {} else LowerSet(kept[..|kept| - 1]) + {Lower(kept[|kept| - 1])}
  }

  /** A lower-cased form is in the set exactly when a kept name has it. */
  lemma {:induction false} LowerSetSeen(kept: seq<string>, name: string)
    ensures Lower(name) in LowerSet(kept) <==> SeenLower(kept, name)
  {
    if kept != [] {
      var front := kept[..|kept| - 1];
      LowerSetSeen(front, name);
      if SeenLower(front, name) {
        var j :| 0 <= j < |front| && Lower(front[j]) == Lower(name);
        assert kept[j] == front[j];
      }
      if SeenLower(kept, name) {
        var j :| 0 <= j < |kept| && Lower(kept[j]) == Lower(name);
        if j < |front| {
          assert front[j] == kept[j];
        }
      }
    }
  }

  /** One more name: it is kept exactly when its lower-cased form was not seen. */
  lemma DedupStep(names: seq<string>, i: nat)
    requires i < |names|
    ensures DedupByLower(names[..i + 1]) ==
      if Lower(names[i]) in LowerSet(DedupByLower(names[..i])) then DedupByLower(names[..i])
      else DedupByLower(names[..i]) + [names[i]]
  {
    Seqs.PrefixStep(names, i);
    LowerSetSeen(DedupByLower(names[..i]), names[i]);
  }

  /** The discovery loop with its seen-set of lower-cased names. */
  method DiscoverFiles(names: seq<string>) returns (files: seq<string>)
    ensures files == DedupByLower(names)
  {
    var seen: set<string> := {};
    files := [];
    var i := 0;
    while i < |names|
      invariant 0 <= i <= |names|
      invariant files == DedupByLower(names[..i])
      invariant seen == LowerSet(files)
    {
      var lower := Lower(names[i]);
      DedupStep(names, i);
      if lower !in seen {
        seen := seen + {lower};
        files := files + [names[i]];
      }
      i := i + 1;
    }
    Seqs.WholePrefix(names, i);
  }

  // ---------------------------------------------------------------------
  // Accumulation over the files
  // ---------------------------------------------------------------------

  /** A discovered file: its name, the year its name gives, and its header row. */
  datatype CsvFile = CsvFile(name: string, year: Option<int>, headers: seq<string>)

  /** The file names listing a variable, and the years they cover. */
  datatype Entry = Entry(files: seq<string>, years: set<int>)

  function EntryFor(inventory: map<string, Entry>, v: string): Entry {
    if v in inventory then inventory[v] else Entry([], {})
  }

  /** inventory[col]['files'].append(name) and, with a year, ['years'].add(year), for each header. */
  function AddHeaders(inventory: map<string, Entry>, f: CsvFile, headers: seq<string>): map<string, Entry> {
    if headers == [] then inventory
    else
      var prev := AddHeaders(inventory, f, headers[..|headers| - 1]);
      var col := headers[|headers| - 1];
      var e := EntryFor(prev, col);
      prev[col := Entry(e.files + [f.name], if f.year.Some? then e.years + {f.year.value} else e.years)]
  }

  function Inventory(files: seq<CsvFile>): map<string, Entry> {
    if files == [] then map[]
    else
      var f := files[|files| - 1];
      AddHeaders(Inventory(files[..|files| - 1]), f, f.headers)
  }

  /** The scanning loop over the files and their headers. */
  method ScanFiles(files: seq<CsvFile>) returns (inventory: map<string, Entry>)
    ensures inventory == Inventory(files)
  {
    inventory := map[];
    var i := 0;
    while i < |files|
      invariant 0 <= i <= |files|
      invariant inventory == Inventory(files[..i])
    {
      var f := files[i];
      var before := inventory;
      var j := 0;
      while j < |f.headers|
        invariant 0 <= j <= |f.headers|
        invariant inventory == AddHeaders(before, f, f.headers[..j])
      {
        var col := f.headers[j];
        var e := EntryFor(inventory, col);
        inventory := inventory[col := Entry(e.files + [f.name], if f.year.Some? then e.years + {f.year.value} else e.years)];
        Seqs.PrefixStep(f.headers, j);
        j := j + 1;
      }
      Seqs.WholePrefix(f.headers, j);
      Seqs.PrefixStep(files, i);
      i := i + 1;
    }
    Seqs.WholePrefix(files, i);
  }

  /** Header names are unique within a file (the table reader renames repeats). */
  predicate DistinctHeaders(f: CsvFile) {
    forall i, j :: 0 <= i < j < |f.headers| ==> f.headers[i] != f.headers[j]
  }

  /** The names of the files whose headers list the variable, in scan order. */
  function FilesListing(files: seq<CsvFile>, v: string): seq<string> {
    if files == [] then []
    else
      var f := files[|files| - 1];
      FilesListing(files[..|files| - 1], v) + (if v in f.headers then [f.name] else [])
  }

  /** Adding one file's distinct headers appends its name to exactly the listed variables. */
  lemma {:induction false} AddHeadersAt(inventory: map<string, Entry>, f: CsvFile, headers: seq<string>, v: string)
    requires forall i, j :: 0 <= i < j < |headers| ==> headers[i] != headers[j]
    ensures EntryFor(AddHeaders(inventory, f, headers), v).files ==
      EntryFor(inventory, v).files + (if v in headers then [f.name] else [])
    ensures EntryFor(AddHeaders(inventory, f, headers), v).years ==
      EntryFor(inventory, v).years + (if v in headers && f.year.Some? then {f.year.value} else {})
    ensures v in AddHeaders(inventory, f, headers) <==> v in inventory || v in headers
  {
    if headers != [] {
      var front := headers[..|headers| - 1];
      var col := headers[|headers| - 1];
      AddHeadersAt(inventory, f, front, v);
      assert v in headers <==> v in front || v == col;
    }
  }

  /**
   * A variable's file list names, in scan order, the files whose headers
   * list it, so file_count counts those files; its years are the detected
   * years of those files; and it is inventoried exactly when some file
   * lists it.
   */
  lemma {:induction false} InventoryExact(files: seq<CsvFile>, v: string)
    requires forall i :: 0 <= i < |files| ==> DistinctHeaders(files[i])
    ensures EntryFor(Inventory(files), v).files == FilesListing(files, v)
    ensures forall y :: y in EntryFor(Inventory(files), v).years <==>
      exists i :: 0 <= i < |files| && v in files[i].headers && files[i].year == Some(y)
    ensures v in Inventory(files) <==> exists i :: 0 <= i < |files| && v in files[i].headers
  {
    if files != [] {
      var front := files[..|files| - 1];
      var f := files[|files| - 1];
      assert forall i :: 0 <= i < |front| ==> front[i] == files[i];
      InventoryExact(front, v);
      AddHeadersAt(Inventory(front), f, f.headers, v);
      forall y ensures y in EntryFor(Inventory(files), v).years <==>
        exists i :: 0 <= i < |files| && v in files[i].headers && files[i].year == Some(y)
      {
        if exists i :: 0 <= i < |files| && v in files[i].headers && files[i].year == Some(y) {
          var i :| 0 <= i < |files| && v in files[i].headers && files[i].year == Some(y);
          if i < |front| {
            assert v in front[i].headers && front[i].year == Some(y);
          }
        }
      }
      if exists i :: 0 <= i < |files| && v in files[i].headers {
        var i :| 0 <= i < |files| && v in files[i].headers;
        if i < |front| {
          assert v in front[i].headers;
        }
      }
    }
  }

  // ---------------------------------------------------------------------
  // Output rows
  // ---------------------------------------------------------------------

  datatype InventoryRow = InventoryRow(
    variable: string,
    fileCount: nat,
    yearRange: string,
    firstSeen: Option<int>,
    lastSeen: Option<int>,
    hasGaps: bool,
    gapDetails: string,
    mappedTo: string,
    inTargetSchema: bool)

  /** The upper-cased target schema. */
  function TargetUpper(): set<string> {
    set t | t in TargetSchema :: Upper(t)
  }

  /**
   * One output row: the file count, the first and last year seen, the
   * gap check over the variable's years, the target its upper-cased name
   * maps to ('' when none) and whether it is a target itself.
   */
  method BuildRow(v: string, e: Entry, reverse: map<string, string>) returns (row: InventoryRow)
    ensures row.variable == v && row.fileCount == |e.files|
    ensures row.firstSeen.Some? <==> e.years != {}
    ensures row.lastSeen.Some? <==> e.years != {}
    ensures row.firstSeen.Some? ==> Least(e.years, row.firstSeen.value)
    ensures row.lastSeen.Some? ==> Greatest(e.years, row.lastSeen.value)
    ensures row.yearRange != "" <==> e.years != {} && row.firstSeen.value != 0 && row.lastSeen.value != 0
    ensures row.yearRange != "" ==>
      row.yearRange == IntToString(row.firstSeen.value) + "-" + IntToString(row.lastSeen.value)
    ensures row.hasGaps <==> HasGap(e.years)
    ensures row.hasGaps ==> row.gapDetails == GapText(e.years, row.firstSeen.value, row.lastSeen.value)
    ensures !row.hasGaps ==> row.gapDetails == ""
    ensures Upper(v) in reverse ==> row.mappedTo == reverse[Upper(v)]
    ensures Upper(v) !in reverse ==> row.mappedTo == ""
    ensures row.inTargetSchema <==> Upper(v) in TargetUpper()
  {
    var hasGaps, details := DetectGaps(e.years);
    var first, last: Option<int> := None, None;
    if e.years != {} {
      var lo, hi := Bounds(e.years);
      first, last := Some(lo), Some(hi);
    }
    var yearRange := if first.Some? && first.value != 0 && last.Some? && last.value != 0
      then IntToString(first.value) + "-" + IntToString(last.value) else "";
    var mapped := if Upper(v) in reverse then reverse[Upper(v)] else "";
    row := InventoryRow(v, |e.files|, yearRange, first, last, hasGaps, details, mapped, Upper(v) in TargetUpper());
  }
}
