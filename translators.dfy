/**
 * Era-banded code translators: each takes a raw survey code and the
 * release year and gives the harmonized code, or missing when the code is
 * not one the release's era defines.  Every translator first coerces its
 * input (safe_int), so a blank, 'nan', 'na', '.', 'none' or unreadable
 * cell is missing before any table is consulted.
 */
module Translators {
  import opened Wrappers
  import opened Cells

  /** The translator functions of TRANSLATION_MAP. */
  datatype Kind = Rel | Mstat | Grade | Conwr | Natem | YesNo | Pclass | Pbasis | Wynot

  // ---------------------------------------------------------------------
  // Marital status
  // ---------------------------------------------------------------------

  /**
   * translate_mstat on a coerced code.  Up to 2023 each era has its own
   * table onto the harmonized codes {1, 2, 4, 6, 7, 8}; from 2024 the code
   * is already harmonized.
   */
  function MstatCode(code: int, year: int): (r: Option<int>)
    ensures year >= 2024 ==> r == Some(code)
    ensures year <= 2010 ==> (r.Some? <==> 1 <= code <= 5)
    ensures 2010 < year <= 2023 ==> (r.Some? <==> 1 <= code <= 6)
    ensures year <= 2023 && r.Some? ==> r.value in {1, 2, 4, 6, 7, 8}
  {
    if year <= 2010 then
      if code == 1 then Some(1) else if code == 2 then Some(2) else if code == 3 then Some(4)
      else if code == 4 then Some(6) else if code == 5 then Some(8) else None
    else if year <= 2014 then
      if code == 1 then Some(1) else if code == 2 then Some(2) else if code == 3 then Some(4)
      else if code == 4 then Some(6) else if code == 5 then Some(8) else if code == 6 then Some(7) else None
    else if year <= 2023 then
      if code == 1 then Some(1) else if code == 2 then Some(2) else if code == 3 then Some(4)
      else if code == 4 then Some(6) else if code == 5 then Some(7) else if code == 6 then Some(8) else None
    else Some(code)
  }

  /** Within one era, distinct source codes never collapse onto the same harmonized code. */
  lemma MstatInjective(a: int, b: int, year: int)
    requires MstatCode(a, year).Some? && MstatCode(a, year) == MstatCode(b, year)
    ensures a == b
  {
  }

  /**
   * The 2011-2014 table extends the pre-2011 one (with code 6 for the
   * extra status), and the 2015-2023 table swaps which source codes give
   * harmonized 7 and 8.
   */
  lemma MstatEras(code: int)
    ensures 1 <= code <= 5 ==> MstatCode(code, 2011) == MstatCode(code, 2010)
    ensures MstatCode(6, 2011) == Some(7) && MstatCode(6, 2010).None?
    ensures 1 <= code <= 4 ==> MstatCode(code, 2015) == MstatCode(code, 2014)
    ensures MstatCode(5, 2015) == Some(7) && MstatCode(6, 2015) == Some(8)
  {
  }

  // ---------------------------------------------------------------------
  // Highest grade completed
  // ---------------------------------------------------------------------

  /** The harmonized grade codes: 0, 2000 and the six-digit-era range 10011..64011. */
  predicate IsHarmonizedGrade(g: int) {
    0 <= g <= 1000 || g == 2000 || 10011 <= g <= 64011
  }

  /**
   * translate_grade on a coerced code: exactly one era band applies
   * (up to 2011, 2012-2016, 2017-2018, 2019-2022, then identity).
   */
  function GradeCode(code: int, year: int): (r: Option<int>)
    ensures year >= 2023 ==> r == Some(code)
    ensures 2019 <= year <= 2022 ==> (r.Some? <==> IsHarmonizedGrade(code))
    ensures 2019 <= year <= 2022 && r.Some? && code > 1000 ==> r.value == code
    ensures year <= 2022 && r.Some? ==> IsHarmonizedGrade(r.value)
  {
    if year <= 2011 then
      if code == 0 then Some(0)
      else if code == 1 then Some(10012)
      else if code == 2 then Some(10018)
      else if code == 3 then Some(24012)
      else if code == 4 then Some(35011)
      else if code == 5 then Some(54011)
      else if 60 <= code <= 68 then Some(55011)
      else if 70 <= code <= 76 then Some(64011)
      else None
    else if year <= 2016 then
      if code == 0 then Some(0)
      else if code == 10 then Some(2000)
      else if 210 <= code <= 260 then
        Some(if code == 210 then 10011 else if code == 220 then 10012 else if code == 230 then 10013
             else if code == 240 then 10014 else if code == 250 then 10015 else if code == 260 then 10016
             else 10012)
      else if code == 270 then Some(10017)
      else if code == 280 then Some(10018)
      else if 310 <= code <= 340 then Some(24011 + (code - 310) / 10)
      else if code == 350 then Some(35011)
      else if 410 <= code <= 499 then Some(44011)
      else if 510 <= code <= 559 then Some(54011)
      else if 560 <= code <= 599 then Some(55011)
      else if 610 <= code <= 699 then Some(64011)
      else None
    else if year <= 2018 then
      if code == 0 then Some(0)
      else if code == 1 || code == 2 || code == 10 then Some(2000)
      else if 110 <= code <= 160 then Some(10011 + (code - 110) / 10)
      else if code == 170 || code == 180 || code == 191 || code == 192 then Some(10018)
      else if 210 <= code <= 240 then Some(24011 + (code - 210) / 10)
      else if code == 250 then Some(24015)
      else if 310 <= code <= 320 then Some(34011)
      else if code == 350 then Some(35011)
      else if 410 <= code <= 499 then Some(44011)
      else if 510 <= code <= 559 then Some(54011)
      else if 560 <= code <= 599 then Some(55011)
      else if 610 <= code <= 699 then Some(64011)
      else None
    else if year <= 2022 then
      if 0 <= code <= 1000 then Some(0)
      else if code == 2000 then Some(2000)
      else if 10011 <= code <= 64011 then Some(code)
      else None
    else Some(code)
  }

  /**
   * Codes produced by any era up to 2018 already belong to the 2019-2022
   * code space: running them through that band leaves them unchanged.
   */
  lemma GradeOlderErasStable(code: int, year: int, later: int)
    requires year <= 2018 && 2019 <= later <= 2022
    requires GradeCode(code, year).Some?
    ensures GradeCode(GradeCode(code, year).value, later) == GradeCode(code, year)
  {
  }

  /**
   * In the 2012-2016 band every code from 210 to 260 is kept: the six
   * listed ones by table, and any other one as grade 10012.
   */
  lemma GradeElementaryFallback(code: int, year: int)
    requires 2012 <= year <= 2016 && 210 <= code <= 260 && code % 10 != 0
    ensures GradeCode(code, year) == Some(10012)
  {
  }

  // ---------------------------------------------------------------------
  // Range checks
  // ---------------------------------------------------------------------

  /** The codes a range-check translator keeps, as an inclusive interval. */
  function Bounds(k: Kind): (lh: (int, int))
    requires k !in {Mstat, Grade, Wynot}
    ensures lh.0 <= lh.1
  {
    match k
    case Rel => (1, 26)
    case Conwr => (1, 5)
    case Natem => (1, 3)
    case YesNo => (1, 2)
    case Pclass => (0, 6)
    case Pbasis => (0, 7)
  }

  /**
   * translate_wynot on a coerced code: before 2021 the old code 6 becomes
   * 61, codes 0-5 and 7-9 are kept and anything else is missing; from
   * 2021 the code is kept.
   */
  function WynotCode(code: int, year: int): (r: Option<int>)
    ensures year >= 2021 ==> r == Some(code)
    ensures year < 2021 ==> (r.Some? <==> 0 <= code <= 9)
    ensures year < 2021 && r.Some? ==> r.value == (if code == 6 then 61 else code)
  {
    if year < 2021 then
      if code == 6 then Some(61)
      else if 0 <= code <= 5 || 7 <= code <= 9 then Some(code)
      else None
    else Some(code)
  }

  /** A translator applied to an already coerced code. */
  function Recode(k: Kind, code: int, year: int): (r: Option<int>)
    ensures k !in {Mstat, Grade, Wynot} ==> (r.Some? <==> Bounds(k).0 <= code <= Bounds(k).1)
    ensures k !in {Mstat, Grade, Wynot} && r.Some? ==> r.value == code
  {
    match k
    case Mstat => MstatCode(code, year)
    case Grade => GradeCode(code, year)
    case Wynot => WynotCode(code, year)
    case _ => if Bounds(k).0 <= code <= Bounds(k).1 then Some(code) else None
  }

  /** TRANSLATION_MAP[target](cell, year): coerce, then recode. */
  function Translate(k: Kind, c: Option<Cell>, year: int): (r: Option<int>)
    ensures Coerce(c).None? ==> r.None?
    ensures Coerce(c).Some? ==> r == Recode(k, Coerce(c).value, year)
  {
    match Coerce(c)
    case None => None
    case Some(code) => Recode(k, code, year)
  }

  /** A range-check translator is idempotent: translating its output again changes nothing. */
  lemma RangeIdempotent(k: Kind, c: Option<Cell>, year: int)
    requires k !in {Mstat, Grade, Wynot}
    ensures Translate(k, OfCode(Translate(k, c, year)), year) == Translate(k, c, year)
  {
  }

  /**
   * The year-banded translators are idempotent in their identity eras;
   * before 2021 the wynot recoding is not, because its output 61 is not an
   * old code.
   */
  lemma BandedIdempotent(c: Option<Cell>, year: int)
    ensures year >= 2024 ==> Translate(Mstat, OfCode(Translate(Mstat, c, year)), year) == Translate(Mstat, c, year)
    ensures year >= 2023 ==> Translate(Grade, OfCode(Translate(Grade, c, year)), year) == Translate(Grade, c, year)
    ensures 2019 <= year <= 2022 && Translate(Grade, c, year).Some? && Translate(Grade, c, year).value != 0 ==>
      Translate(Grade, OfCode(Translate(Grade, c, year)), year) == Translate(Grade, c, year)
    ensures year >= 2021 ==> Translate(Wynot, OfCode(Translate(Wynot, c, year)), year) == Translate(Wynot, c, year)
    ensures year < 2021 ==> Translate(Wynot, Some(Num(6)), year) == Some(61) && Translate(Wynot, Some(Num(61)), year).None?
  {
  }

  /** Every translator sends every missing-value spelling to missing. */
  lemma MissingTokensStayMissing(k: Kind, s: string, year: int)
    requires IsMissingToken(Text.Strip(s))
    ensures Translate(k, Some(Str(s)), year).None?
  {
  }
}
