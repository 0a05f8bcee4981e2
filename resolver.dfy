/**
 * The column resolver shared by both harmonizer generations: a target field
 * is read from the first source-name variant, in priority order, that the
 * release has (compared upper-cased) and that holds at least one usable value.
 */
module Resolver {
  import opened Wrappers
  import opened Text
  import opened Cells

  /** One column of a source table under its header. */
  datatype NamedColumn = NamedColumn(name: string, col: Column)

  /** A source table: its columns in header order. */
  type Frame = seq<NamedColumn>

  /** COLUMN_PRIORITY: target field -> source-name variants, best first. */
  type Priority = map<string, seq<string>>

  /** COLUMN_PRIORITY.get(target, [target]). */
  function Variants(prio: Priority, target: string): (r: seq<string>)
    ensures target in prio ==> r == prio[target]
    ensures target !in prio ==> r == [target]
  {
    if target in prio then prio[target] else [target]
  }

  /** {c.upper(): c for c in df.columns}, giving the position of the column. */
  function ColMapUpper(df: Frame): (r: map<string, nat>)
    ensures IndexesInto(r, df)
  {
    if df == [] then map[]
    else ColMapUpper(df[..|df| - 1])[Upper(df[|df| - 1].name) := |df| - 1]
  }

  /** Every upper-cased header is a key of the column map. */
  lemma {:induction false} ColMapHasHeader(df: Frame, i: nat)
    requires i < |df|
    ensures Upper(df[i].name) in ColMapUpper(df)
  {
    if i < |df| - 1 {
      ColMapHasHeader(df[..|df| - 1], i);
    }
  }

  /**
   * Each key of the column map leads to a column with that upper-cased
   * header, and no later header agrees with it: the last one wins.
   */
  lemma {:induction false} ColMapLastWins(df: Frame, k: string)
    requires k in ColMapUpper(df)
    ensures Upper(df[ColMapUpper(df)[k]].name) == k
    ensures forall j :: ColMapUpper(df)[k] < j < |df| ==> Upper(df[j].name) != k
  {
    var last := Upper(df[|df| - 1].name);
    if k != last {
      var front := df[..|df| - 1];
      ColMapLastWins(front, k);
      assert ColMapUpper(df)[k] == ColMapUpper(front)[k];
      assert forall j :: 0 <= j < |front| ==> front[j] == df[j];
    }
  }

  /** Every source table column has one cell per row. */
  predicate Rectangular(df: Frame, nRows: nat) {
    forall i :: 0 <= i < |df| ==> |df[i].col.cells| == nRows
  }

  /** Every key of a column map points into the table. */
  predicate IndexesInto(cmu: map<string, nat>, df: Frame) {
    forall k :: k in cmu ==> cmu[k] < |df|
  }

  /** The variant names a column of the table that has a usable value. */
  predicate Usable(df: Frame, cmu: map<string, nat>, v: string)
    requires IndexesInto(cmu, df)
  {
    Upper(v) in cmu && HasContent(df[cmu[Upper(v)]].col)
  }

  /** The position of the first usable variant, if any. */
  function FirstUsable(df: Frame, cmu: map<string, nat>, vs: seq<string>): (r: Option<nat>)
    requires IndexesInto(cmu, df)
    ensures r.Some? ==> r.value < |vs| && Usable(df, cmu, vs[r.value])
    ensures r.Some? ==> forall j :: 0 <= j < r.value ==> !Usable(df, cmu, vs[j])
    ensures r.None? <==> forall j :: 0 <= j < |vs| ==> !Usable(df, cmu, vs[j])
  {
    if vs == [] then None
    else if Usable(df, cmu, vs[0]) then Some(0)
    else match FirstUsable(df, cmu, vs[1..])
      case None => None
      case Some(k) => Some(k + 1)
  }

  /** The column the resolver settles on for a variant list, and the variant that named it. */
  function Resolve(df: Frame, cmu: map<string, nat>, vs: seq<string>): Option<(Column, string)>
    requires IndexesInto(cmu, df)
  {
    match FirstUsable(df, cmu, vs)
    case None => None
    case Some(k) => Some((df[cmu[Upper(vs[k])]].col, vs[k]))
  }

  /**
   * get_column: walks the target's variants in priority order and stops at
   * the first usable one, returning its column and the variant's spelling;
   * (None, None) when no variant is usable.
   */
  method GetColumn(df: Frame, cmu: map<string, nat>, prio: Priority, target: string)
    returns (col: Option<Column>, src: Option<string>)
    requires IndexesInto(cmu, df)
    ensures col.None? <==> src.None?
    ensures src.None? ==> forall v :: v in Variants(prio, target) ==> !Usable(df, cmu, v)
    ensures src.Some? ==> Usable(df, cmu, src.value) && col == Some(df[cmu[Upper(src.value)]].col)
    ensures match Resolve(df, cmu, Variants(prio, target))
      case None => col.None? && src.None?
      case Some(p) => col == Some(p.0) && src == Some(p.1)
  {
    var vs := Variants(prio, target);
    var i := 0;
    while i < |vs|
      invariant 0 <= i <= |vs|
      invariant forall j :: 0 <= j < i ==> !Usable(df, cmu, vs[j])
    {
      var key := Upper(vs[i]);
      if key in cmu {
        var c := df[cmu[key]].col;
        if HasContent(c) {
          assert Usable(df, cmu, vs[i]);
          return Some(c), Some(vs[i]);
        }
      }
      i := i + 1;
    }
    return None, None;
  }

  /** The earlier generation's get_column, which returns only the column. */
  method GetColumnOnly(df: Frame, cmu: map<string, nat>, prio: Priority, target: string)
    returns (col: Option<Column>)
    requires IndexesInto(cmu, df)
    ensures col.None? <==> forall v :: v in Variants(prio, target) ==> !Usable(df, cmu, v)
    ensures match Resolve(df, cmu, Variants(prio, target))
      case None => col.None?
      case Some(p) => col == Some(p.0)
  {
    var src;
    col, src := GetColumn(df, cmu, prio, target);
  }

  /**
   * A later variant is never consulted while an earlier one is usable,
   * however much fuller the later column is.
   */
  lemma EarlierWins(df: Frame, cmu: map<string, nat>, vs: seq<string>, i: nat, j: nat)
    requires IndexesInto(cmu, df)
    requires i < j < |vs| && Usable(df, cmu, vs[i])
    ensures Resolve(df, cmu, vs).Some?
    ensures Resolve(df, cmu, vs).value.1 != vs[j] || exists k :: 0 <= k <= i && vs[k] == vs[j]
  {
    var r := FirstUsable(df, cmu, vs);
    assert r.Some? && r.value <= i;
  }

  /** An all-missing (or, for text, all-blank) variant is passed over. */
  lemma EmptySkipped(df: Frame, cmu: map<string, nat>, vs: seq<string>)
    requires IndexesInto(cmu, df)
    requires vs != [] && Upper(vs[0]) in cmu
    requires forall i :: 0 <= i < |df[cmu[Upper(vs[0])]].col.cells| ==> !HasValue(df[cmu[Upper(vs[0])]].col.isText, df[cmu[Upper(vs[0])]].col.cells[i])
    ensures Resolve(df, cmu, vs) == Resolve(df, cmu, vs[1..])
  {
    assert !Usable(df, cmu, vs[0]);
  }

}
