/**
 * Cells and columns of a survey table as pandas hands them to the
 * harmonizer, and the numeric coercion every translator starts with
 * (safe_numeric / safe_int, and pd.to_numeric(errors='coerce') on a column).
 *
 * A cell is an integer or a piece of text; a missing cell (NaN / None) is
 * `None`.  A column remembers whether pandas typed it as text (`object`).
 */
module Cells {
  import opened Wrappers
  import opened Text
  import Reals

  datatype Cell = Num(n: int) | Str(s: string)

  datatype Column = Column(isText: bool, cells: seq<Option<Cell>>)

  /** str(x) of a cell. */
  function Render(c: Cell): (r: string)
    ensures c.Str? ==> r == c.s
    ensures c.Num? ==> ParseInt(r) == Some(c.n)
  {
    match c
    case Num(n) => ParseRendered(n); IntToString(n)
    case Str(s) => s
  }

  predicate IsBlank(s: string) {
    Strip(s) == []
  }

  /**
   * A cell that makes a column usable: present, and for a text column also
   * non-blank once stripped.
   */
  predicate HasValue(isText: bool, c: Option<Cell>) {
    c.Some? && (!isText || !IsBlank(Render(c.value)))
  }

  /** The column has at least one usable cell. */
  predicate HasContent(col: Column) {
    exists i :: 0 <= i < |col.cells| && HasValue(col.isText, col.cells[i])
  }

  /** Number of present entries (Series.notna().sum()). */
  function CountSome<T>(s: seq<Option<T>>): (n: nat)
    ensures n <= |s|
  {
    if s == [] then 0 else CountSome(s[..|s| - 1]) + (if s[|s| - 1].Some? then 1 else 0)
  }

  lemma {:induction false} CountSomeZero<T>(s: seq<Option<T>>)
    ensures CountSome(s) == 0 <==> forall i :: 0 <= i < |s| ==> s[i].None?
  {
    if s != [] {
      CountSomeZero(s[..|s| - 1]);
      assert forall i :: 0 <= i < |s| - 1 ==> s[..|s| - 1][i] == s[i];
    }
  }

  /** A sequence made only of present entries counts them all. */
  lemma {:induction false} CountSomeAll<T>(s: seq<Option<T>>)
    requires forall i :: 0 <= i < |s| ==> s[i].Some?
    ensures CountSome(s) == |s|
  {
    if s != [] {
      CountSomeAll(s[..|s| - 1]);
    }
  }

  /**
   * When every present entry of `a` sits where `b` also has one, `a`
   * counts no more than `b` (a coercion or a translation never creates values).
   */
  lemma {:induction false} CountSomeMono<T, U>(a: seq<Option<T>>, b: seq<Option<U>>)
    requires |a| == |b|
    requires forall i :: 0 <= i < |a| ==> a[i].Some? ==> b[i].Some?
    ensures CountSome(a) <= CountSome(b)
  {
    if a != [] {
      CountSomeMono(a[..|a| - 1], b[..|b| - 1]);
    }
  }

  /** Entries where `b` has a value and `a` lost it: the difference of the counts. */
  lemma {:induction false} CountSomeLoss<T, U>(a: seq<Option<T>>, b: seq<Option<U>>)
    requires |a| == |b|
    requires forall i :: 0 <= i < |a| ==> a[i].Some? ==> b[i].Some?
    ensures CountSome(b) - CountSome(a) == LostCount(a, b)
  {
    if a != [] {
      CountSomeLoss(a[..|a| - 1], b[..|b| - 1]);
    }
  }

  /** Number of positions where `b` is present and `a` is missing. */
  function LostCount<T, U>(a: seq<Option<T>>, b: seq<Option<U>>): nat
    requires |a| == |b|
  {
    if a == [] then 0
    else LostCount(a[..|a| - 1], b[..|b| - 1]) + (if a[|a| - 1].None? && b[|b| - 1].Some? then 1 else 0)
  }

  // ---------------------------------------------------------------------
  // Coercion
  // ---------------------------------------------------------------------

  /** The text spellings of a missing value, compared after strip and lower-casing. */
  predicate IsMissingToken(t: string) {
    var l := Lower(t);
    l == "" || l == "nan" || l == "na" || l == "." || l == "none"
  }

  /**
   * safe_int: a number stays itself; text is stripped, its missing-value
   * spellings give missing, and otherwise it must read as a (signed) integer.
   */
  function Coerce(c: Option<Cell>): (r: Option<int>)
    ensures c.None? ==> r.None?
    ensures c.Some? && c.value.Num? ==> r == Some(c.value.n)
    ensures c.Some? && c.value.Str? && IsMissingToken(Strip(c.value.s)) ==> r.None?
    ensures r.Some? && c.Some? && c.value.Str? ==> Strip(c.value.s) != [] && ParseInt(Strip(c.value.s)) == r
  {
    match c
    case None => None
    case Some(Num(n)) => Some(n)
    case Some(Str(s)) =>
      var t := Strip(s);
      if IsMissingToken(t) then None else ParseInt(t)
  }

  /** A cleaned value fed back to a translator as a number. */
  function OfCode(v: Option<int>): (c: Option<Cell>)
    ensures Coerce(c) == v
  {
    match v
    case None => None
    case Some(n) => Some(Num(n))
  }

  /** The text str(n) of an integer coerces back to n. */
  lemma CoerceRendered(n: int)
    ensures Coerce(Some(Str(IntToString(n)))) == Some(n)
  {
    var s := IntToString(n);
    RenderedNoSpace(n);
    StripNoSpace(s);
    ParseRendered(n);
    RenderedEndsInDigit(n);
    EndsInDigitNotMissing(s);
  }

  /** A text ending in a digit is none of the missing-value spellings. */
  lemma EndsInDigitNotMissing(t: string)
    requires t != [] && IsDigit(t[|t| - 1])
    ensures !IsMissingToken(t)
  {
    var l := Lower(t);
    assert IsDigit(l[|l| - 1]);
    assert l != "" && l[|l| - 1] != "nan"[2] && l[|l| - 1] != "na"[1] && l[|l| - 1] != "."[0] && l[|l| - 1] != "none"[3];
  }

  /** pd.to_numeric(series, errors='coerce'): the cell-wise coercion of a column. */
  function CleanColumn(cells: seq<Option<Cell>>): (r: seq<Option<int>>)
    ensures |r| == |cells|
    ensures forall i :: 0 <= i < |cells| ==> r[i] == Coerce(cells[i])
  {
    if cells == [] then [] else CleanColumn(cells[..|cells| - 1]) + [Coerce(cells[|cells| - 1])]
  }

  /** Cleaning never adds values: clean_nonnull <= raw_nonnull. */
  lemma CleanNoMore(cells: seq<Option<Cell>>)
    ensures CountSome(CleanColumn(cells)) <= CountSome(cells)
  {
    CountSomeMono(CleanColumn(cells), cells);
  }

  /** A numeric column keeps every value through cleaning. */
  lemma CleanNumeric(cells: seq<Option<Cell>>)
    requires forall i :: 0 <= i < |cells| ==> cells[i].None? || cells[i].value.Num?
    ensures CountSome(CleanColumn(cells)) == CountSome(cells)
  {
    var r := CleanColumn(cells);
    CountSomeMono(r, cells);
    CountSomeMono(cells, r);
  }

  /** A usable column has at least one present cell. */
  lemma ContentHasValue(col: Column)
    requires HasContent(col)
    ensures CountSome(col.cells) >= 1
  {
    CountSomeZero(col.cells);
  }

  /** part / whole * 100, and 0 for an empty table. */
  function Percent(part: int, whole: nat): real {
    if whole == 0 then 0.0 else (part as real) * 100.0 / (whole as real)
  }

  /** A part of a whole is a percentage of it; an empty whole gives 0. */
  lemma PercentBounds(part: nat, whole: nat)
    requires part <= whole
    ensures 0.0 <= Percent(part, whole) <= 100.0
  {
    if whole > 0 {
      PercentComplement(part, whole);
    }
  }

  /** A share of a non-empty whole lies between 0 and 100, and with its complement makes 100. */
  lemma PercentComplement(part: nat, whole: nat)
    requires 0 < whole && part <= whole
    ensures 0.0 <= Percent(part, whole) <= 100.0
    ensures Percent(part, whole) + Percent(whole - part, whole) == 100.0
  {
    var w, p := whole as real, part as real;
    assert ((whole - part) as real) == w - p;
    Reals.DivNonNeg(p * 100.0, w);
    Reals.DivMonotone(p * 100.0, w * 100.0, w);
    Reals.MulDiv(100.0, w);
    Reals.DivAdd(p * 100.0, (w - p) * 100.0, w);
    assert p * 100.0 + (w - p) * 100.0 == w * 100.0;
  }
}
