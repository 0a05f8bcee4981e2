/**
 * The cross-reference of the harmonizer's column priority table against
 * the variable inventory: for every target column, which releases carry
 * one of its source variants (the first variant in priority order that the
 * release's dictionary lists, compared upper-cased), which do not, and
 * which variants matched at all.
 */
module CrossReference {
  import opened Wrappers
  import opened Text
  import opened Seqs
  import BuildVariableInventory

  type Record = BuildVariableInventory.Record

  /** The variables of a release, upper-cased and stripped. */
  function UpperVars(inv: seq<Record>, rel: string): set<string> {
    set k | 0 <= k < |inv| && inv[k].release == rel :: Strip(Upper(inv[k].variable))
  }

  /** The source variants of a target: its priority list, or the target itself when it has none. */
  function Variants(priority: map<string, seq<string>>, target: string): seq<string> {
    if target in priority then priority[target] else [target]
  }

  /** The lookup from release to its variables, upper-cased and stripped. */
  function Lookup(inv: seq<Record>): map<string, set<string>> {
    map rel | rel in BuildVariableInventory.ReleasesOf(inv) :: UpperVars(inv, rel)
  }

  /** The variables of a release in the lookup; none for a release it does not know. */
  function VarsOf(lookup: map<string, set<string>>, rel: string): set<string> {
    if rel in lookup then lookup[rel] else {}
  }

  /** The lookup gives every release of the inventory, and only those, its own variables. */
  lemma LookupExact(inv: seq<Record>, rel: string)
    ensures VarsOf(Lookup(inv), rel) == UpperVars(inv, rel)
  {
    BuildVariableInventory.ReleasesOfExact(inv, rel);
  }

  /** The variants of a target, upper-cased. */
  function UpperVariants(priority: map<string, seq<string>>, target: string): (r: seq<string>)
    ensures |r| == |Variants(priority, target)|
  {
    Mapped(Upper, Variants(priority, target))
  }

  lemma UpperVariantsAt(priority: map<string, seq<string>>, target: string, j: nat)
    requires j < |Variants(priority, target)|
    ensures UpperVariants(priority, target)[j] == Upper(Variants(priority, target)[j])
  {
    MappedAt(Upper, Variants(priority, target), j);
  }

  /** The variant a release matches: the first of the upper-cased variants among its variables. */
  function Matched(lookup: map<string, set<string>>, variants: seq<string>, rel: string): Option<string> {
    match FirstIn(variants, VarsOf(lookup, rel))
    case None => None
    case Some(i) => Some(variants[i])
  }

  /** A release is covered when it matched a variant (an empty match counts as none). */
  predicate Covers(lookup: map<string, set<string>>, variants: seq<string>, rel: string) {
    var m := Matched(lookup, variants, rel);
    m.Some? && m.value != ""
  }

  /** The matched variant is the first variant listed in the lookup; there is none when none is. */
  lemma MatchedFirst(lookup: map<string, set<string>>, variants: seq<string>, rel: string)
    ensures Matched(lookup, variants, rel).None? <==>
      forall j :: 0 <= j < |variants| ==> variants[j] !in VarsOf(lookup, rel)
    ensures Matched(lookup, variants, rel).Some? ==>
      exists j :: 0 <= j < |variants| && Matched(lookup, variants, rel).value == variants[j] &&
        variants[j] in VarsOf(lookup, rel) &&
        forall i :: 0 <= i < j ==> variants[i] !in VarsOf(lookup, rel)
  {
  }

  /**
   * The variant a release of the inventory matches is a target variant,
   * upper-cased, that the release lists, and no earlier variant is listed;
   * there is none exactly when the release lists none of them.
   */
  lemma MatchedVariant(inv: seq<Record>, priority: map<string, seq<string>>, target: string, rel: string)
    ensures var variants := Variants(priority, target);
      var m := Matched(Lookup(inv), UpperVariants(priority, target), rel);
      && (m.None? <==> forall j :: 0 <= j < |variants| ==> Upper(variants[j]) !in UpperVars(inv, rel))
      && (m.Some? ==>
            exists j :: 0 <= j < |variants| && m.value == Upper(variants[j]) &&
              m.value in UpperVars(inv, rel) &&
              forall i :: 0 <= i < j ==> Upper(variants[i]) !in UpperVars(inv, rel))
  {
    var variants := Variants(priority, target);
    var upper := UpperVariants(priority, target);
    LookupExact(inv, rel);
    MatchedFirst(Lookup(inv), upper, rel);
    forall j | 0 <= j < |variants|
      ensures upper[j] == Upper(variants[j])
    {
      UpperVariantsAt(priority, target, j);
    }
    MatchTransfer(Matched(Lookup(inv), upper, rel), upper, variants, VarsOf(Lookup(inv), rel), UpperVars(inv, rel));
  }

  /** Carries the first-match facts over the upper-cased variants back to the variants themselves. */
  lemma MatchTransfer(m: Option<string>, upper: seq<string>, variants: seq<string>, found: set<string>, vars: set<string>)
    requires found == vars && |upper| == |variants|
    requires forall j :: 0 <= j < |variants| ==> upper[j] == Upper(variants[j])
    requires m.None? <==> forall j :: 0 <= j < |upper| ==> upper[j] !in found
    requires m.Some? ==>
      exists j :: 0 <= j < |upper| && m.value == upper[j] && upper[j] in found &&
        forall i :: 0 <= i < j ==> upper[i] !in found
    ensures m.None? <==> forall j :: 0 <= j < |variants| ==> Upper(variants[j]) !in vars
    ensures m.Some? ==>
      exists j :: 0 <= j < |variants| && m.value == Upper(variants[j]) && m.value in vars &&
        forall i :: 0 <= i < j ==> Upper(variants[i]) !in vars
  {
    if m.Some? {
      var j :| 0 <= j < |upper| && m.value == upper[j] && upper[j] in found &&
        forall i :: 0 <= i < j ==> upper[i] !in found;
      assert m.value == Upper(variants[j]);
    }
  }

  /** The releases covered, in release order. */
  function CoveredOf(lookup: map<string, set<string>>, variants: seq<string>, rs: seq<string>): seq<string> {
    if rs == [] then []
    else
      var rel := rs[|rs| - 1];
      CoveredOf(lookup, variants, rs[..|rs| - 1]) + (if Covers(lookup, variants, rel) then [rel] else [])
  }

  /** The releases not covered, in release order. */
  function UncoveredOf(lookup: map<string, set<string>>, variants: seq<string>, rs: seq<string>): seq<string> {
    if rs == [] then []
    else
      var rel := rs[|rs| - 1];
      UncoveredOf(lookup, variants, rs[..|rs| - 1]) + (if Covers(lookup, variants, rel) then [] else [rel])
  }

  /** The variant used by each covered release. */
  function UsedOf(lookup: map<string, set<string>>, variants: seq<string>, rs: seq<string>): map<string, string> {
    if rs == [] then map[]
    else
      var rel := rs[|rs| - 1];
      var used := UsedOf(lookup, variants, rs[..|rs| - 1]);
      if Covers(lookup, variants, rel) then used[rel := Matched(lookup, variants, rel).value] else used
  }

  /** Covered and uncovered releases split the releases: every release is in exactly one, and the counts add up. */
  lemma {:induction false} CoverPartition(lookup: map<string, set<string>>, variants: seq<string>, rs: seq<string>)
    ensures |CoveredOf(lookup, variants, rs)| + |UncoveredOf(lookup, variants, rs)| == |rs|
    ensures forall rel :: rel in CoveredOf(lookup, variants, rs) <==> rel in rs && Covers(lookup, variants, rel)
    ensures forall rel :: rel in UncoveredOf(lookup, variants, rs) <==> rel in rs && !Covers(lookup, variants, rel)
  {
    if rs != [] {
      var front := rs[..|rs| - 1];
      CoverPartition(lookup, variants, front);
      assert rs == front + [rs[|rs| - 1]];
    }
  }

  /** The variant recorded for a release is the one it matched, and only covered releases have one. */
  lemma {:induction false} UsedExact(lookup: map<string, set<string>>, variants: seq<string>, rs: seq<string>)
    ensures forall rel :: rel in UsedOf(lookup, variants, rs) <==> rel in rs && Covers(lookup, variants, rel)
    ensures forall rel :: rel in UsedOf(lookup, variants, rs) ==>
      Covers(lookup, variants, rel) && UsedOf(lookup, variants, rs)[rel] == Matched(lookup, variants, rel).value
  {
    if rs != [] {
      var front := rs[..|rs| - 1];
      UsedExact(lookup, variants, front);
      assert rs == front + [rs[|rs| - 1]];
    }
  }

  /** One row of the coverage table. */
  datatype Coverage = Coverage(
    target: string,
    nVariants: nat,
    covered: seq<string>,
    uncovered: seq<string>,
    used: map<string, string>,
    matchedVariants: set<string>,
    pct: real)

  /** The coverage row of a target over the releases. */
  function TargetCoverage(lookup: map<string, set<string>>, releases: seq<string>, priority: map<string, seq<string>>, target: string): Coverage
    requires releases != []
  {
    var variants := UpperVariants(priority, target);
    CoverageRow(target, |variants|, CoveredOf(lookup, variants, releases),
                UncoveredOf(lookup, variants, releases), UsedOf(lookup, variants, releases), |releases|)
  }

  /** A coverage row from its lists: the matched variants are the values of the used map, the percentage is over all releases. */
  function CoverageRow(target: string, nVariants: nat, covered: seq<string>, uncovered: seq<string>,
                       used: map<string, string>, nReleases: nat): Coverage
    requires nReleases > 0
  {
    Coverage(target, nVariants, covered, uncovered, used,
             set rel | rel in used :: used[rel],
             (|covered| as real) / (nReleases as real) * 100.0)
  }

  /** A variant is listed as matched exactly when some covered release matched it. */
  lemma MatchedVariantsExact(lookup: map<string, set<string>>, releases: seq<string>, priority: map<string, seq<string>>, target: string, v: string)
    requires releases != []
    ensures var c := TargetCoverage(lookup, releases, priority, target);
      v in c.matchedVariants <==>
        exists rel :: rel in releases && Covers(lookup, UpperVariants(priority, target), rel) &&
          Matched(lookup, UpperVariants(priority, target), rel) == Some(v)
  {
    var variants := UpperVariants(priority, target);
    var used := UsedOf(lookup, variants, releases);
    UsedExact(lookup, variants, releases);
    if exists rel :: rel in releases && Covers(lookup, variants, rel) && Matched(lookup, variants, rel) == Some(v) {
      var rel :| rel in releases && Covers(lookup, variants, rel) && Matched(lookup, variants, rel) == Some(v);
      assert used[rel] == v;
    }
  }

  /** A coverage row accounts for every release once, and its percentage is full exactly when nothing is uncovered. */
  lemma CoverageCounts(lookup: map<string, set<string>>, releases: seq<string>, priority: map<string, seq<string>>, target: string)
    requires releases != []
    ensures var c := TargetCoverage(lookup, releases, priority, target);
      && |c.covered| + |c.uncovered| == |releases|
      && 0.0 <= c.pct <= 100.0
      && (c.pct == 100.0 <==> c.uncovered == [])
      && (c.pct == 0.0 <==> c.covered == [])
  {
    var variants := UpperVariants(priority, target);
    CoverPartition(lookup, variants, releases);
    BuildVariableInventory.CoverageBounds(|CoveredOf(lookup, variants, releases)|, |releases|);
  }

  /** One more release extends the covered, uncovered and used lists by that release alone. */
  lemma Step(lookup: map<string, set<string>>, variants: seq<string>, rs: seq<string>, i: nat)
    requires i < |rs|
    ensures CoveredOf(lookup, variants, rs[..i + 1]) ==
      CoveredOf(lookup, variants, rs[..i]) + (if Covers(lookup, variants, rs[i]) then [rs[i]] else [])
    ensures UncoveredOf(lookup, variants, rs[..i + 1]) ==
      UncoveredOf(lookup, variants, rs[..i]) + (if Covers(lookup, variants, rs[i]) then [] else [rs[i]])
    ensures UsedOf(lookup, variants, rs[..i + 1]) ==
      if Covers(lookup, variants, rs[i])
      then UsedOf(lookup, variants, rs[..i])[rs[i] := Matched(lookup, variants, rs[i]).value]
      else UsedOf(lookup, variants, rs[..i])
  {
    PrefixStep(rs, i);
  }

  /** The per-release loop of one target. */
  method AnalyzeTarget(lookup: map<string, set<string>>, releases: seq<string>, priority: map<string, seq<string>>, target: string)
    returns (c: Coverage)
    requires releases != []
    ensures c == TargetCoverage(lookup, releases, priority, target)
  {
    var variants := UpperVariants(priority, target);
    var covered, uncovered, used := [], [], map[];
    var i := 0;
    while i < |releases|
      invariant 0 <= i <= |releases|
      invariant covered == CoveredOf(lookup, variants, releases[..i])
      invariant uncovered == UncoveredOf(lookup, variants, releases[..i])
      invariant used == UsedOf(lookup, variants, releases[..i])
    {
      Step(lookup, variants, releases, i);
      var rel := releases[i];
      var matched := Matched(lookup, variants, rel);
      if matched.Some? && matched.value != "" {
        covered := covered + [rel];
        used := used[rel := matched.value];
      } else {
        uncovered := uncovered + [rel];
      }
      i := i + 1;
    }
    WholePrefix(releases, i);
    c := CoverageRow(target, |variants|, covered, uncovered, used, |releases|);
  }

  /** One row of the uncovered detail: a release without any variant of a target, and what it has instead. */
  datatype Detail = Detail(target: string, release: string, searched: seq<string>, available: set<string>)

  /** The detail rows of a target, one per uncovered release. */
  method UncoveredDetail(lookup: map<string, set<string>>, priority: map<string, seq<string>>, target: string, uncovered: seq<string>)
    returns (details: seq<Detail>)
    ensures |details| == |uncovered|
    ensures forall i :: 0 <= i < |uncovered| ==>
      details[i] == Detail(target, uncovered[i], Variants(priority, target), VarsOf(lookup, uncovered[i]))
  {
    details := [];
    for i := 0 to |uncovered|
      invariant |details| == i
      invariant forall j :: 0 <= j < i ==>
        details[j] == Detail(target, uncovered[j], Variants(priority, target), VarsOf(lookup, uncovered[j]))
    {
      details := details + [Detail(target, uncovered[i], Variants(priority, target), VarsOf(lookup, uncovered[i]))];
    }
  }

  /** The coverage rows of every target of the schema, in schema order. */
  method CrossReferenceAll(inv: seq<Record>, schema: seq<string>, priority: map<string, seq<string>>)
    returns (rows: seq<Coverage>)
    requires inv != []
    ensures |rows| == |schema|
    ensures forall i :: 0 <= i < |schema| ==>
      rows[i] == TargetCoverage(Lookup(inv), BuildVariableInventory.Releases(inv), priority, schema[i])
  {
    var lookup := Lookup(inv);
    var releases := BuildVariableInventory.Releases(inv);
    BuildVariableInventory.ReleasesExact(inv, inv[0].release);
    rows := [];
    for i := 0 to |schema|
      invariant |rows| == i
      invariant forall j :: 0 <= j < i ==> rows[j] == TargetCoverage(lookup, releases, priority, schema[j])
    {
      var c := AnalyzeTarget(lookup, releases, priority, schema[i]);
      RowsStep(lookup, releases, priority, schema, rows, c);
      rows := rows + [c];
    }
  }

  /** One more target's row extends the rows of the targets before it. */
  lemma RowsStep(lookup: map<string, set<string>>, releases: seq<string>, priority: map<string, seq<string>>,
                 schema: seq<string>, rows: seq<Coverage>, c: Coverage)
    requires releases != [] && |rows| < |schema|
    requires forall j :: 0 <= j < |rows| ==> rows[j] == TargetCoverage(lookup, releases, priority, schema[j])
    requires c == TargetCoverage(lookup, releases, priority, schema[|rows|])
    ensures forall j :: 0 <= j < |rows| + 1 ==> (rows + [c])[j] == TargetCoverage(lookup, releases, priority, schema[j])
  {
  }

  /** How well a target is covered. */
  datatype Level = Full | Partial | Uncovered

  function LevelOf(c: Coverage): Level {
    if c.uncovered == [] then Full
    else if c.covered == [] then Uncovered
    else Partial
  }

  /** Fully covered, partially covered and fully uncovered targets are disjoint and, with at least one release, exhaust the targets. */
  lemma LevelsPartition(lookup: map<string, set<string>>, releases: seq<string>, priority: map<string, seq<string>>, target: string)
    requires releases != []
    ensures var c := TargetCoverage(lookup, releases, priority, target);
      && (LevelOf(c) == Full <==> |c.uncovered| == 0)
      && (LevelOf(c) == Uncovered <==> |c.covered| == 0)
      && (LevelOf(c) == Partial <==> |c.covered| > 0 && |c.uncovered| > 0)
  {
    CoverageCounts(lookup, releases, priority, target);
  }
}
