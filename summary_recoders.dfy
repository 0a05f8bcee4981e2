/**
 * The earlier harmonizer's one-digit summary recoders: occupation major
 * group, industry section, education level and marital-status group.  Each
 * coerces its input like the translators and maps a raw code of the
 * release's era to a small summary code, or to missing.
 */
module SummaryRecoders {
  import opened Wrappers
  import opened Cells
  import Translators

  // ---------------------------------------------------------------------
  // Occupation: one-digit major group
  // ---------------------------------------------------------------------

  /** The pre-2012 occupation code table onto major groups 0-9. */
  const OccTable: map<int, int> := map[
    1 := 0, 11 := 1, 12 := 1, 13 := 1, 14 := 1, 21 := 2, 22 := 2, 23 := 2, 24 := 2,
    31 := 3, 32 := 3, 33 := 3, 34 := 3, 41 := 4, 42 := 4, 51 := 5, 52 := 5,
    61 := 6, 62 := 6, 63 := 6, 64 := 6, 65 := 6, 71 := 7, 72 := 7, 73 := 7, 74 := 7,
    81 := 8, 82 := 8, 83 := 8, 91 := 9, 92 := 9, 93 := 9]

  /**
   * harm_occ_1dig on a coerced code: before 2012 the fixed table; from 2012
   * the leading digit of a code of up to four digits (code // 1000, // 100
   * or // 10 by magnitude; a code below 10 is kept).
   */
  function OccMajor(code: int, year: int): (r: Option<int>)
    ensures year < 2012 ==> (r.Some? <==> code in OccTable)
    ensures year < 2012 && r.Some? ==> 0 <= r.value <= 9
    ensures year >= 2012 ==> r.Some?
    ensures year >= 2012 && 0 <= code < 10000 ==> 0 <= r.value <= 9
  {
    if year < 2012 then
      if code in OccTable then Some(OccTable[code]) else None
    else
      Some(if code >= 1000 then code / 1000 else if code >= 100 then code / 100 else if code >= 10 then code / 10 else code)
  }

  /** From 2012 a code of two to four digits is summarised by its leading digit. */
  lemma OccLeadingDigit(code: int, year: int)
    requires year >= 2012 && 10 <= code < 10000
    ensures var d := OccMajor(code, year).value;
      1 <= d <= 9 &&
      (code >= 1000 ==> d * 1000 <= code < (d + 1) * 1000) &&
      (100 <= code < 1000 ==> d * 100 <= code < (d + 1) * 100) &&
      (code < 100 ==> d * 10 <= code < (d + 1) * 10)
  {
  }

  // ---------------------------------------------------------------------
  // Industry: one-digit section
  // ---------------------------------------------------------------------

  /** The pre-2012 industry code table onto sections 1-16, written section by section. */
  function OldIndustrySection(code: int): (r: Option<int>)
    ensures r.Some? ==> 1 <= r.value <= 16
    ensures r.Some? ==> 1 <= code <= 99
  {
    if 1 <= code <= 6 then Some(1)
    else if code in {10, 11} then Some(2)
    else if 15 <= code <= 37 then Some(3)
    else if code in {40, 41} then Some(4)
    else if code == 45 then Some(5)
    else if code in {50, 51, 52} then Some(6)
    else if code == 55 then Some(7)
    else if 60 <= code <= 64 then Some(8)
    else if 65 <= code <= 67 then Some(9)
    else if 70 <= code <= 74 then Some(10)
    else if code == 75 then Some(11)
    else if code == 80 then Some(12)
    else if code == 85 then Some(13)
    else if 90 <= code <= 93 then Some(14)
    else if code == 95 then Some(15)
    else if code == 99 then Some(16)
    else None
  }

  /** The section of a two-digit division in the 2012-and-later classification, if listed. */
  function DivisionSection(d: int): (r: Option<int>)
    ensures r.Some? ==> 1 <= r.value <= 21
    ensures r.Some? ==> 1 <= d <= 99
  {
    if d in {1, 2, 3} then Some(1)
    else if d in {5, 6, 7, 8, 9} then Some(2)
    else if 10 <= d <= 33 then Some(3)
    else if d == 35 then Some(4)
    else if d in {36, 37, 38, 39} then Some(5)
    else if d in {41, 42, 43} then Some(6)
    else if d in {45, 46, 47} then Some(7)
    else if d in {49, 50, 51, 52, 53} then Some(8)
    else if d in {55, 56} then Some(9)
    else if d in {58, 59, 60, 61, 62, 63} then Some(10)
    else if d in {64, 65, 66} then Some(11)
    else if d == 68 then Some(12)
    else if d in {69, 70, 71, 72, 73, 74, 75} then Some(13)
    else if d in {77, 78, 79, 80, 81, 82} then Some(14)
    else if d == 84 then Some(15)
    else if d == 85 then Some(16)
    else if d in {86, 87, 88} then Some(17)
    else if d in {90, 91, 92, 93} then Some(18)
    else if d in {94, 95, 96} then Some(19)
    else if d == 97 then Some(20)
    else if d == 99 then Some(21)
    else None
  }

  /** harm_ind_1dig on a coerced code. */
  function IndSection(code: int, year: int): (r: Option<int>)
    ensures year < 2012 && r.Some? ==> 1 <= r.value <= 16
    ensures year >= 2012 && r.Some? ==> 1 <= r.value <= 21
  {
    if year < 2012 then
      OldIndustrySection(code)
    else
      DivisionSection(if code >= 100 then code / 100 else code)
  }

  /**
   * From 2012 a code of three or more digits is summarised through its
   * division (code // 100): a four-digit class lands in its division's section.
   */
  lemma IndThroughDivision(code: int, year: int)
    requires year >= 2012 && 100 <= code < 10000
    ensures IndSection(code, year) == IndSection(code / 100, year)
  {
  }

  /** Divisions that the 2012 classification does not list (4, 34, 40, ...) give missing. */
  lemma IndUnlistedDivisions(year: int)
    requires year >= 2012
    ensures IndSection(4, year).None? && IndSection(34, year).None? && IndSection(40, year).None?
    ensures IndSection(3400, year).None? && IndSection(9800, year).None?
  {
  }

  // ---------------------------------------------------------------------
  // Education: one-digit level
  // ---------------------------------------------------------------------

  /**
   * The level of a code in the newest band's checks after the catch-all for
   * 0..1000: the legacy 2017-2018 codes and the six-digit codes, each
   * mapped to its level 0-9.
   */
  function EduNewestLevel(code: int): (r: Option<int>)
    ensures r.Some? ==> 0 <= r.value <= 9
  {
    if code == 0 then Some(0)
    else if code == 2000 || code in {1, 2, 10} then Some(1)
    else if (10011 <= code <= 10015) || (110 <= code <= 160) then Some(2)
    else if (10016 <= code <= 10018) || code in {170, 180, 191, 192} then Some(3)
    else if (24011 <= code <= 24013) || (210 <= code <= 240) then Some(4)
    else if (24014 <= code <= 24015) || code == 250 || code == 35011 || code == 350 then Some(5)
    else if code == 34011 || (310 <= code <= 349) || (44011 <= code <= 44012) || (410 <= code <= 499) then Some(6)
    else if code == 54011 || (510 <= code <= 559) then Some(7)
    else if code == 55011 || (560 <= code <= 599) then Some(8)
    else if code == 64011 || (610 <= code <= 699) then Some(9)
    else None
  }

  /** The two older bands of harm_edu_summary (up to 2011, 2012-2016). */
  function EduOldLevel(code: int, year: int): (r: Option<int>)
    requires year <= 2016
    ensures r.Some? ==> 0 <= r.value <= 9
  {
    if year <= 2011 then
      if code == 0 then Some(0)
      else if code == 1 then Some(2)
      else if code == 2 then Some(3)
      else if code == 3 then Some(4)
      else if code == 4 then Some(5)
      else if code == 5 then Some(7)
      else if 60 <= code <= 68 then Some(8)
      else if 70 <= code <= 76 then Some(9)
      else None
    else
      if code == 0 then Some(0)
      else if code == 10 then Some(1)
      else if 210 <= code <= 260 then Some(2)
      else if code == 270 || code == 280 then Some(3)
      else if 310 <= code <= 340 then Some(4)
      else if code == 350 then Some(5)
      else if 410 <= code <= 499 then Some(6)
      else if 510 <= code <= 559 then Some(7)
      else if 560 <= code <= 599 then Some(8)
      else if 610 <= code <= 699 then Some(9)
      else None
  }

  /**
   * harm_edu_summary on a coerced code as written: from 2017 the test
   * 0 <= code <= 1000 comes first and answers 0 for every legacy code.
   */
  function EduLevelAsWritten(code: int, year: int): (r: Option<int>)
    ensures r.Some? ==> 0 <= r.value <= 9
    ensures year >= 2017 && 0 <= code <= 1000 ==> r == Some(0)
  {
    if year <= 2016 then EduOldLevel(code, year)
    else if 0 <= code <= 1000 then Some(0)
    else EduNewestLevel(code)
  }

  /**
   * harm_edu_summary with the specific codes tested before the 0..1000
   * catch-all in the 2017-2018 releases, so that their legacy raw codes
   * reach the levels of their translated codes; every other year is
   * summarised as written.
   */
  function EduLevel(code: int, year: int): (r: Option<int>)
    ensures r.Some? ==> 0 <= r.value <= 9
    ensures 2017 <= year <= 2018 && 0 <= code <= 1000 ==> r.Some?
    ensures 2017 <= year <= 2018 && code > 1000 ==> r == EduLevelAsWritten(code, year)
    ensures year <= 2016 || year >= 2019 ==> r == EduLevelAsWritten(code, year)
  {
    if year <= 2016 then EduOldLevel(code, year)
    else if year <= 2018 && EduNewestLevel(code).Some? then EduNewestLevel(code)
    else if 0 <= code <= 1000 then Some(0)
    else EduNewestLevel(code)
  }

  /**
   * As written, a 2017 release's elementary grade 1 (raw code 110, which
   * translate_grade turns into 10011) is summarised as level 0, while its
   * translated code is summarised as level 2.
   */
  lemma EduAsWrittenLosesLegacyCodes()
    ensures EduLevelAsWritten(110, 2017) == Some(0)
    ensures Translators.GradeCode(110, 2017) == Some(10011)
    ensures EduLevelAsWritten(10011, 2017) == Some(2)
  {
  }

  /**
   * Corrected, summarising a 2017-2018 raw grade code agrees with
   * summarising its translated code, for every code the translator keeps
   * except the band ends 160 and 240 (which the two tables place differently).
   */
  lemma EduAgreesWithGrade(code: int, year: int)
    requires 2017 <= year <= 2018
    requires Translators.GradeCode(code, year).Some? && code != 160 && code != 240
    ensures EduLevel(code, year) == EduLevel(Translators.GradeCode(code, year).value, year)
  {
  }

  // ---------------------------------------------------------------------
  // Marital status: summary group
  // ---------------------------------------------------------------------

  /** harm_mstat_summary on a coerced code: every era's table lands in groups 1-6. */
  function MstatGroup(code: int, year: int): (r: Option<int>)
    ensures r.Some? ==> 1 <= r.value <= 6
    ensures year <= 2010 ==> (r.Some? <==> 1 <= code <= 5)
    ensures 2010 < year <= 2023 ==> (r.Some? <==> 1 <= code <= 6)
    ensures year >= 2024 ==> (r.Some? <==> 1 <= code <= 8)
  {
    if year <= 2010 then
      if 1 <= code <= 4 then Some(code) else if code == 5 then Some(6) else None
    else if year <= 2014 then
      if 1 <= code <= 4 then Some(code) else if code == 5 then Some(6) else if code == 6 then Some(5) else None
    else if year <= 2023 then
      if 1 <= code <= 6 then Some(code) else None
    else
      if code == 1 then Some(1) else if code == 2 || code == 3 then Some(2) else if code == 4 then Some(3)
      else if code == 5 || code == 6 then Some(4) else if code == 7 then Some(5) else if code == 8 then Some(6)
      else None
  }

  /**
   * From 2024 raw codes are already harmonized marital-status codes, and
   * the grouping agrees with grouping the harmonized code of an older era:
   * e.g. an old widowed code 5 (harmonized 8) is group 6 either way.
   */
  lemma MstatGroupAgreesWithTranslation(code: int, year: int)
    requires 2015 <= year <= 2023 && Translators.MstatCode(code, year).Some?
    ensures MstatGroup(code, year) == MstatGroup(Translators.MstatCode(code, year).value, 2024)
  {
  }

  // ---------------------------------------------------------------------
  // Recoders on cells
  // ---------------------------------------------------------------------

  datatype Recoder = OccDigit | IndDigit | EduSummary | MstatSummary

  /** harm_*(cell, year): coerce, then recode. */
  function Recode(h: Recoder, c: Option<Cell>, year: int): (r: Option<int>)
    ensures Coerce(c).None? ==> r.None?
    ensures r.Some? && h != OccDigit ==> 0 <= r.value <= 21
  {
    match Coerce(c)
    case None => None
    case Some(code) =>
      match h
      case OccDigit => OccMajor(code, year)
      case IndDigit => IndSection(code, year)
      case EduSummary => EduLevelAsWritten(code, year)
      case MstatSummary => MstatGroup(code, year)
  }
}
