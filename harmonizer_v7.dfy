/**
 * The earlier harmonizer's per-release step.  It maps the schema fields the
 * same way as the current one, but skips the derived fields while mapping,
 * fills the year and month fields only when no source column supplied them,
 * adds the derived summary fields from the cleaned original columns, and
 * keeps only the schema fields it produced, in schema order.
 */
module HarmonizerV7 {
  import opened Wrappers
  import opened Cells
  import opened Resolver
  import opened Translators
  import opened HarmonizerConfig
  import opened HarmonizerV8
  import SummaryRecoders
  import ReleaseNames
  import Seqs

  /** An output table under construction: field name to column. */
  type Columns = map<string, seq<Option<int>>>

  predicate EndsWith(s: string, suffix: string) {
    |suffix| <= |s| && s[|s| - |suffix|..] == suffix
  }

  /** A derived summary field, which the mapping loop skips. */
  predicate IsDerivedName(t: string) {
    EndsWith(t, "_1DIG") || EndsWith(t, "_HARM")
  }

  /** The column the mapping loop produces for a field, if any. */
  function FieldColumnV7(df: Frame, cmu: map<string, nat>, prio: Priority, tmap: map<string, Kind>,
                         t: string, year: int): Option<seq<Option<int>>>
    requires IndexesInto(cmu, df)
  {
    var res := Resolve(df, cmu, Variants(prio, t));
    if IsDerivedName(t) || res.None? then None else Some(FieldValues(res.value.0, KindOf(tmap, t), year))
  }

  /** The column the mapping loop produces for each field, as a function of the field's name. */
  function FieldColumnsV7(df: Frame, cmu: map<string, nat>, prio: Priority, tmap: map<string, Kind>,
                          year: int): string -> Option<seq<Option<int>>>
    requires IndexesInto(cmu, df)
  {
    t => FieldColumnV7(df, cmu, prio, tmap, t, year)
  }

  /**
   * The mapping loop, given the column it produces for each field: every
   * schema field that has one gets it; the others are left out.
   */
  function MapFieldsV7(columnOf: string -> Option<seq<Option<int>>>, schema: seq<string>): (m: Columns)
    ensures forall t :: t in m <==> t in schema && columnOf(t).Some?
    ensures forall t :: t in m ==> m[t] == columnOf(t).value
  {
    if schema == [] then map[]
    else
      var t := schema[|schema| - 1];
      var m := MapFieldsV7(columnOf, schema[..|schema| - 1]);
      assert forall u :: u in schema <==> u in schema[..|schema| - 1] || u == t;
      var c := columnOf(t);
      if c.Some? then m[t := c.value] else m
  }

  /** A field the mapping loop produces is a non-derived one read from its resolved column. */
  lemma FieldColumnV7Mapped(df: Frame, cmu: map<string, nat>, prio: Priority, tmap: map<string, Kind>, t: string, year: int)
    requires IndexesInto(cmu, df)
    ensures FieldColumnV7(df, cmu, prio, tmap, t, year).Some? <==> !IsDerivedName(t) && Resolve(df, cmu, Variants(prio, t)).Some?
    ensures FieldColumnV7(df, cmu, prio, tmap, t, year).Some? ==>
      FieldColumnV7(df, cmu, prio, tmap, t, year).value == FieldValues(Resolve(df, cmu, Variants(prio, t)).value.0, KindOf(tmap, t), year)
  {
  }

  /** One field of the mapping loop. */
  method MapFieldV7(df: Frame, cmu: map<string, nat>, prio: Priority, tmap: map<string, Kind>, t: string, year: int)
    returns (c: Option<seq<Option<int>>>)
    requires IndexesInto(cmu, df)
    ensures c == FieldColumnV7(df, cmu, prio, tmap, t, year)
    ensures c == FieldColumnsV7(df, cmu, prio, tmap, year)(t)
  {
    if IsDerivedName(t) {
      return None;
    }
    var col := GetColumnOnly(df, cmu, prio, t);
    if col.Some? {
      return Some(FieldValues(col.value, KindOf(tmap, t), year));
    }
    return None;
  }

  /**
   * The conditional lock: the year field is filled with the year only when
   * the mapping loop did not produce it, and the month field with the month
   * only when it was not produced and a month was found.  Every column the
   * loop produced is kept as it was.
   */
  function LockV7(m: Columns, year: int, month: Option<nat>, nRows: nat): (r: Columns)
    ensures forall t :: t in m ==> t in r && r[t] == m[t]
    ensures forall t :: t in r <==> t in m || t == YearField || (t == MonthField && month.Some? && month.value != 0)
    ensures YearField !in m ==> r[YearField] == Repeat(Some(year), nRows)
    ensures MonthField !in m && month.Some? && month.value != 0 ==> r[MonthField] == Repeat(Some(month.value), nRows)
  {
    var withYear := if YearField in m then m else m[YearField := Repeat(Some(year), nRows)];
    if MonthField !in withYear && month.Some? && month.value != 0 then withYear[MonthField := Repeat(Some(month.value), nRows)]
    else withYear
  }

  /** A summary recoder applied to every cleaned cell of an original column. */
  function RecodeColumn(h: SummaryRecoders.Recoder, clean: seq<Option<int>>, year: int): (r: seq<Option<int>>)
    ensures |r| == |clean|
    ensures forall i :: 0 <= i < |clean| ==> r[i] == SummaryRecoders.Recode(h, OfCode(clean[i]), year)
  {
    if clean == [] then []
    else RecodeColumn(h, clean[..|clean| - 1], year) + [SummaryRecoders.Recode(h, OfCode(clean[|clean| - 1]), year)]
  }

  /** A derived field: its name, the field it is computed from, and the recoder. */
  type Derived = (string, string, SummaryRecoders.Recoder)

  /** The derived column of an entry whose original field resolves, read from the cleaned original column. */
  function DerivedColumn(df: Frame, cmu: map<string, nat>, prio: Priority, d: Derived, year: int): Option<seq<Option<int>>>
    requires IndexesInto(cmu, df)
  {
    var res := Resolve(df, cmu, Variants(prio, d.1));
    if res.None? then None else Some(RecodeColumn(d.2, CleanColumn(res.value.0.cells), year))
  }

  /** One entry of the derived-field loop. */
  method DerivedColumnOf(df: Frame, cmu: map<string, nat>, prio: Priority, d: Derived, year: int)
    returns (c: Option<seq<Option<int>>>)
    requires IndexesInto(cmu, df)
    ensures c == DerivedColumn(df, cmu, prio, d, year)
    ensures c == DerivedColumnsOf(df, cmu, prio, year)(d)
  {
    var col := GetColumnOnly(df, cmu, prio, d.1);
    if col.Some? {
      return Some(RecodeColumn(d.2, CleanColumn(col.value.cells), year));
    }
    return None;
  }

  /** The derived column of each entry, as a function of the entry. */
  function DerivedColumnsOf(df: Frame, cmu: map<string, nat>, prio: Priority, year: int): Derived -> Option<seq<Option<int>>>
    requires IndexesInto(cmu, df)
  {
    d => DerivedColumn(df, cmu, prio, d, year)
  }

  /** The derived column of every entry, in order, given the column of each entry. */
  function DerivedColumns(columnOf: Derived -> Option<seq<Option<int>>>, derived: seq<Derived>): (r: seq<Option<seq<Option<int>>>>)
    ensures |r| == |derived| && forall i :: 0 <= i < |derived| ==> r[i] == columnOf(derived[i])
  {
    if derived == [] then []
    else DerivedColumns(columnOf, derived[..|derived| - 1]) + [columnOf(derived[|derived| - 1])]
  }

  /** The derived names, in order. */
  function Names(derived: seq<Derived>): (r: seq<string>)
    ensures |r| == |derived| && forall i :: 0 <= i < |derived| ==> r[i] == derived[i].0
  {
    if derived == [] then [] else Names(derived[..|derived| - 1]) + [derived[|derived| - 1].0]
  }

  /**
   * The derived-field loop on its produced columns: each entry that has a
   * column sets it under its name, in order; entries without one change
   * nothing.  Columns under other names are kept.
   */
  function SetColumns(names: seq<string>, cols: seq<Option<seq<Option<int>>>>, m: Columns): (r: Columns)
    requires |names| == |cols|
    ensures forall t :: t in m ==> t in r
    ensures forall t :: t in m && t !in names ==> r[t] == m[t]
  {
    if names == [] then m
    else
      var r := SetColumns(names[..|names| - 1], cols[..|cols| - 1], m);
      assert forall t :: t !in names ==> t !in names[..|names| - 1];
      if cols[|cols| - 1].Some? then r[names[|names| - 1] := cols[|cols| - 1].value] else r
  }

  /** The last entry for a name that has a column decides that name's column. */
  lemma {:induction false} SetColumnsLastWins(names: seq<string>, cols: seq<Option<seq<Option<int>>>>, m: Columns, i: nat)
    requires |names| == |cols| && i < |names| && cols[i].Some?
    requires forall j :: i < j < |names| ==> names[j] != names[i]
    ensures names[i] in SetColumns(names, cols, m) && SetColumns(names, cols, m)[names[i]] == cols[i].value
  {
    var n := |names| - 1;
    if i < n {
      SetColumnsLastWins(names[..n], cols[..n], m, i);
    }
  }

  /** One more entry of the derived-field loop. */
  lemma SetColumnsStep(names: seq<string>, cols: seq<Option<seq<Option<int>>>>, m: Columns, j: nat)
    requires |names| == |cols| && j < |names|
    ensures var before := SetColumns(names[..j], cols[..j], m);
      SetColumns(names[..j + 1], cols[..j + 1], m) == if cols[j].Some? then before[names[j] := cols[j].value] else before
  {
    assert names[..j + 1][..j] == names[..j] && cols[..j + 1][..j] == cols[..j];
  }

  /** The derived-field loop: every entry whose original resolves sets its derived field. */
  function AddDerived(df: Frame, cmu: map<string, nat>, prio: Priority, derived: seq<Derived>, m: Columns, year: int): Columns
    requires IndexesInto(cmu, df)
  {
    SetColumns(Names(derived), DerivedColumns(DerivedColumnsOf(df, cmu, prio, year), derived), m)
  }

  /** [c for c in OUTPUT_SCHEMA if c in out_df.columns], with the columns. */
  function Ordered(schema: seq<string>, m: Columns): (r: seq<(string, seq<Option<int>>)>)
    ensures |r| <= |schema|
    ensures forall p :: p in r ==> p.0 in schema && p.0 in m && p.1 == m[p.0]
    ensures forall t :: t in schema && t in m ==> (t, m[t]) in r
  {
    if schema == [] then []
    else
      var t := schema[|schema| - 1];
      Ordered(schema[..|schema| - 1], m) + (if t in m then [(t, m[t])] else [])
  }

  /** The output of the earlier generation's step for a release processed under `year` and `month`. */
  function OutcomeV7(df: Frame, cmu: map<string, nat>, nRows: nat, prio: Priority, schema: seq<string>,
                     tmap: map<string, Kind>, derived: seq<Derived>, year: int, month: Option<nat>): seq<(string, seq<Option<int>>)>
    requires IndexesInto(cmu, df)
  {
    Ordered(schema, AddDerived(df, cmu, prio, derived, LockV7(MapFieldsV7(FieldColumnsV7(df, cmu, prio, tmap, year), schema), year, month, nRows), year))
  }

  /**
   * A derived field whose original resolves is computed from the original's
   * cleaned cells, not from its translated output: for the grade summary
   * that means the summary recoder sees the release's own grade codes.
   */
  lemma DerivedFromOriginal(df: Frame, cmu: map<string, nat>, prio: Priority, m: Columns, year: int, k: nat)
    requires IndexesInto(cmu, df)
    requires k < |V7Derived| && Resolve(df, cmu, Variants(prio, V7Derived[k].1)).Some?
    ensures var r := AddDerived(df, cmu, prio, V7Derived, m, year);
      var col := Resolve(df, cmu, Variants(prio, V7Derived[k].1)).value.0;
      V7Derived[k].0 in r && |r[V7Derived[k].0]| == |col.cells| &&
      forall i :: 0 <= i < |col.cells| ==>
        r[V7Derived[k].0][i] == SummaryRecoders.Recode(V7Derived[k].2, OfCode(Coerce(col.cells[i])), year)
  {
    var names := Names(V7Derived);
    var cols := DerivedColumns(DerivedColumnsOf(df, cmu, prio, year), V7Derived);
    DerivedNamesDistinct();
    DerivedColumnCells(df, cmu, prio, V7Derived[k], year);
    SetColumnsLastWins(names, cols, m, k);
  }

  /** The derived names are pairwise different. */
  lemma DerivedNamesDistinct()
    ensures forall i, j :: 0 <= i < j < |V7Derived| ==> Names(V7Derived)[i] != Names(V7Derived)[j]
  {
    var names := Names(V7Derived);
    assert names[0] == "PUFC14_PROCC_1DIG" && names[1] == "PUFC16_PKB_1DIG";
    assert names[2] == "PUFC07_GRADE_HARM" && names[3] == "PUFC06_MSTAT_HARM";
  }

  /** The derived column of an entry whose original resolves recodes each cleaned cell of that original. */
  lemma DerivedColumnCells(df: Frame, cmu: map<string, nat>, prio: Priority, d: Derived, year: int)
    requires IndexesInto(cmu, df)
    requires Resolve(df, cmu, Variants(prio, d.1)).Some?
    ensures var col := Resolve(df, cmu, Variants(prio, d.1)).value.0;
      var c := DerivedColumn(df, cmu, prio, d, year);
      c.Some? && |c.value| == |col.cells| &&
      forall i :: 0 <= i < |col.cells| ==> c.value[i] == SummaryRecoders.Recode(d.2, OfCode(Coerce(col.cells[i])), year)
  {
  }

  /**
   * The year field is always in the result, and keeps the source's own
   * values whenever the release has a usable year column; then the
   * inferred year is not forced onto it.
   */
  lemma YearKeptWhenMapped(df: Frame, cmu: map<string, nat>, nRows: nat, prio: Priority, schema: seq<string>,
                           tmap: map<string, Kind>, year: int, month: Option<nat>)
    requires IndexesInto(cmu, df)
    requires YearField in schema && Resolve(df, cmu, Variants(prio, YearField)).Some?
    ensures var m := LockV7(MapFieldsV7(FieldColumnsV7(df, cmu, prio, tmap, year), schema), year, month, nRows);
      m[YearField] == FieldValues(Resolve(df, cmu, Variants(prio, YearField)).value.0, KindOf(tmap, YearField), year)
  {
    assert !IsDerivedName(YearField) by {
      assert YearField[|YearField| - 5..] == "SVYYR";
    }
    FieldColumnV7Mapped(df, cmu, prio, tmap, YearField, year);
    var columnOf := FieldColumnsV7(df, cmu, prio, tmap, year);
    assert columnOf(YearField) == FieldColumnV7(df, cmu, prio, tmap, YearField, year);
    var mapped := MapFieldsV7(columnOf, schema);
    assert YearField in mapped && mapped[YearField] == columnOf(YearField).value;
  }

  /** The mapping loop of the earlier generation. */
  method MapSchemaV7(df: Frame, cmu: map<string, nat>, prio: Priority, schema: seq<string>,
                     tmap: map<string, Kind>, year: int)
    returns (m: Columns)
    requires IndexesInto(cmu, df)
    ensures m == MapFieldsV7(FieldColumnsV7(df, cmu, prio, tmap, year), schema)
  {
    ghost var columnOf := FieldColumnsV7(df, cmu, prio, tmap, year);
    m := map[];
    var i := 0;
    while i < |schema|
      invariant 0 <= i <= |schema|
      invariant m == MapFieldsV7(columnOf, schema[..i])
    {
      var target := schema[i];
      Seqs.PrefixStep(schema, i);
      var c := MapFieldV7(df, cmu, prio, tmap, target, year);
      if c.Some? {
        m := m[target := c.value];
      }
      i := i + 1;
    }
    Seqs.WholePrefix(schema, i);
  }

  /** The derived-field loop of the earlier generation. */
  method AddDerivedLoop(df: Frame, cmu: map<string, nat>, prio: Priority, derived: seq<Derived>, m0: Columns, year: int)
    returns (m: Columns)
    requires IndexesInto(cmu, df)
    ensures m == AddDerived(df, cmu, prio, derived, m0, year)
  {
    var names := Names(derived);
    ghost var cols := DerivedColumns(DerivedColumnsOf(df, cmu, prio, year), derived);
    m := m0;
    var j := 0;
    while j < |derived|
      invariant 0 <= j <= |derived|
      invariant m == SetColumns(names[..j], cols[..j], m0)
    {
      SetColumnsStep(names, cols, m0, j);
      var c := DerivedColumnOf(df, cmu, prio, derived[j], year);
      if c.Some? {
        m := m[names[j] := c.value];
      }
      j := j + 1;
    }
    assert names[..j] == names && cols[..j] == cols;
  }

  /** final_cols: the schema fields present in the table, in schema order. */
  method SelectSchema(schema: seq<string>, m: Columns) returns (out: seq<(string, seq<Option<int>>)>)
    ensures out == Ordered(schema, m)
  {
    out := [];
    var k := 0;
    while k < |schema|
      invariant 0 <= k <= |schema|
      invariant out == Ordered(schema[..k], m)
    {
      Seqs.PrefixStep(schema, k);
      if schema[k] in m {
        out := out + [(schema[k], m[schema[k]])];
      }
      k := k + 1;
    }
    Seqs.WholePrefix(schema, k);
  }

  /**
   * process_file of the earlier generation: infer the year and month as the
   * current one does, map the non-derived schema fields, lock year and month
   * where missing, add the derived fields, and keep the schema fields that
   * were produced, in schema order.
   */
  method ProcessFileV7(stem: string, df: Frame, nRows: nat, prio: Priority, schema: seq<string>,
                       tmap: map<string, Kind>, derived: seq<Derived>, mode: ModeOracle)
    returns (out: seq<(string, seq<Option<int>>)>)
    ensures var cmu := ColMapUpper(df);
      var (fileYear, month) := ReleaseNames.ExtractYearMonth(stem);
      out == OutcomeV7(df, cmu, nRows, prio, schema, tmap, derived, InferYearAsWritten(fileYear, df, cmu, mode), month)
    ensures forall p :: p in out ==> p.0 in schema
  {
    var cmu := ColMapUpper(df);
    var (fileYear, month) := ReleaseNames.ExtractYearMonth(stem);
    var year := InferYear(fileYear, df, cmu, mode);
    var m := MapSchemaV7(df, cmu, prio, schema, tmap, year);
    m := LockV7(m, year, month, nRows);
    m := AddDerivedLoop(df, cmu, prio, derived, m, year);
    out := SelectSchema(schema, m);
  }
}
