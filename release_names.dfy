/**
 * Reading the survey year and month from a release's file name, as every
 * tool of the pipeline does: the year is the leftmost match of the pattern
 * 20dd or 199d, the month the first month name of a table, in table order,
 * that occurs in the upper-cased name.
 */
module ReleaseNames {
  import opened Wrappers
  import opened Text

  // ---------------------------------------------------------------------
  // Year: leftmost match of (20\d{2}|199\d)
  // ---------------------------------------------------------------------

  /** The year the pattern matches at position i, if it matches there. */
  function YearAt(s: string, i: nat): (r: Option<int>)
    ensures r.Some? ==> i + 4 <= |s| && 1990 <= r.value <= 2099
  {
    if i + 4 <= |s| && s[i] == '2' && s[i + 1] == '0' && IsDigit(s[i + 2]) && IsDigit(s[i + 3]) then
      Some(2000 + 10 * DigitValue(s[i + 2]) + DigitValue(s[i + 3]))
    else if i + 4 <= |s| && s[i] == '1' && s[i + 1] == '9' && s[i + 2] == '9' && IsDigit(s[i + 3]) then
      Some(1990 + DigitValue(s[i + 3]))
    else None
  }

  /** The leftmost position at or after `from` where the pattern matches. */
  function MatchFrom(s: string, from: nat): (r: Option<nat>)
    ensures r.Some? ==> from <= r.value && YearAt(s, r.value).Some?
    ensures r.Some? ==> forall j :: from <= j < r.value ==> YearAt(s, j).None?
    ensures r.None? ==> forall j :: from <= j ==> YearAt(s, j).None?
    decreases |s| - from
  {
    if from + 4 > |s| then None
    else if YearAt(s, from).Some? then Some(from)
    else MatchFrom(s, from + 1)
  }

  /** re.search(r'(20\d{2}|199\d)', s): the year of the leftmost match. */
  function ScanYear(s: string): (r: Option<int>)
    ensures r.Some? ==> 1990 <= r.value <= 2099
    ensures r.Some? <==> exists i :: YearAt(s, i).Some?
  {
    match MatchFrom(s, 0)
    case None => None
    case Some(i) => YearAt(s, i)
  }

  lemma DigitRoundTrip(d: nat)
    requires d < 10
    ensures DigitValue(DigitChar(d)) == d
  {
  }

  /** A four-digit number renders as its four digits. */
  lemma FourDigits(y: nat)
    requires 1000 <= y <= 9999
    ensures NatToString(y) == [DigitChar(y / 1000), DigitChar(y / 100 % 10), DigitChar(y / 10 % 10), DigitChar(y % 10)]
  {
    var d3, d2, d1 := y / 10, y / 100, y / 1000;
    assert d3 / 10 == d2 && d2 / 10 == d1 && d2 % 10 == y / 100 % 10;
    assert NatToString(d1) == [DigitChar(d1)];
    assert NatToString(d2) == NatToString(d1) + [DigitChar(d2 % 10)];
    assert NatToString(d3) == NatToString(d2) + [DigitChar(d3 % 10)];
    assert NatToString(y) == NatToString(d3) + [DigitChar(y % 10)];
  }

  /** A name that starts with a year from 1990 to 2099 is read as that year, whatever follows. */
  lemma ScanRenderedYear(y: int, rest: string)
    requires 1990 <= y <= 2099
    ensures ScanYear(IntToString(y) + rest) == Some(y)
  {
    FourDigits(y);
    var s := IntToString(y) + rest;
    var d1, d2, d3, d4 := y / 1000, y / 100 % 10, y / 10 % 10, y % 10;
    YearDigits(y);
    DigitRoundTrip(d3);
    DigitRoundTrip(d4);
    assert s[..4] == [DigitChar(d1), DigitChar(d2), DigitChar(d3), DigitChar(d4)];
    YearAtDigits(s, d1, d2, d3, d4);
  }

  /** The digits of a year from 1990 to 2099. */
  lemma YearDigits(y: int)
    requires 1990 <= y <= 2099
    ensures y >= 2000 ==> y / 1000 == 2 && y / 100 % 10 == 0 && y == 2000 + 10 * (y / 10 % 10) + y % 10
    ensures y < 2000 ==> y / 1000 == 1 && y / 100 % 10 == 9 && y / 10 % 10 == 9 && y == 1990 + y % 10
  {
  }

  /** A name whose first four characters are the digits of a year in range matches that year at its start. */
  lemma YearAtDigits(s: string, d1: nat, d2: nat, d3: nat, d4: nat)
    requires d3 < 10 && d4 < 10 && DigitValue(DigitChar(d3)) == d3 && DigitValue(DigitChar(d4)) == d4
    requires (d1 == 2 && d2 == 0) || (d1 == 1 && d2 == 9 && d3 == 9)
    requires |s| >= 4 && s[..4] == [DigitChar(d1), DigitChar(d2), DigitChar(d3), DigitChar(d4)]
    ensures ScanYear(s) == Some(1000 * d1 + 100 * d2 + 10 * d3 + d4)
  {
    assert s[0] == DigitChar(d1) && s[1] == DigitChar(d2) && s[2] == DigitChar(d3) && s[3] == DigitChar(d4);
    assert YearAt(s, 0) == Some(1000 * d1 + 100 * d2 + 10 * d3 + d4);
  }

  /** Upper-casing the name does not change the year found. */
  lemma ScanYearUpper(s: string)
    ensures ScanYear(Upper(s)) == ScanYear(s)
  {
    forall i: nat ensures YearAt(Upper(s), i) == YearAt(s, i) {
      YearAtUpper(s, i);
    }
    MatchUpper(s, 0);
  }

  /** Upper-casing leaves digits alone and turns nothing else into one, so the pattern matches at the same places. */
  lemma YearAtUpper(s: string, i: nat)
    ensures YearAt(Upper(s), i) == YearAt(s, i)
  {
    var u := Upper(s);
    forall k | i <= k < i + 4 && k < |s|
      ensures (IsDigit(u[k]) || IsDigit(s[k])) ==> u[k] == s[k]
    {
    }
  }

  lemma {:induction false} MatchUpper(s: string, from: nat)
    requires forall i: nat :: YearAt(Upper(s), i) == YearAt(s, i)
    ensures MatchFrom(Upper(s), from) == MatchFrom(s, from)
    decreases |s| - from
  {
    if from + 4 <= |s| && YearAt(s, from).None? {
      MatchUpper(s, from + 1);
    }
  }

  // ---------------------------------------------------------------------
  // Month: first table entry contained in the name
  // ---------------------------------------------------------------------

  /** The month table of the harmonizers, the validation report and the inventories. */
  const BasicMonths: seq<(string, nat)> := [
    ("JAN", 1), ("FEB", 2), ("MAR", 3), ("APR", 4), ("MAY", 5), ("JUN", 6),
    ("JUL", 7), ("AUG", 8), ("SEP", 9), ("OCT", 10), ("NOV", 11), ("DEC", 12)]

  /** The dictionary extractor's month table, with full and alternative spellings. */
  const ExtendedMonths: seq<(string, nat)> := [
    ("JAN", 1), ("JANUARY", 1), ("FEB", 2), ("FEBRUARY", 2), ("MAR", 3), ("MARCH", 3),
    ("APR", 4), ("APRIL", 4), ("MAY", 5), ("JUN", 6), ("JUNE", 6),
    ("JUL", 7), ("JULY", 7), ("AUG", 8), ("AUGUST", 8), ("SEP", 9), ("SEPT", 9), ("SEPTEMBER", 9),
    ("OCT", 10), ("OCTOBER", 10), ("NOV", 11), ("NOVEMBER", 11), ("DEC", 12), ("DECEMBER", 12)]

  /** The position of the first entry whose name occurs in `s`. */
  function FirstKey(table: seq<(string, nat)>, s: string): (r: Option<nat>)
    ensures r.Some? ==> r.value < |table| && Contains(s, table[r.value].0)
    ensures r.Some? ==> forall j :: 0 <= j < r.value ==> !Contains(s, table[j].0)
    ensures r.None? <==> forall j :: 0 <= j < |table| ==> !Contains(s, table[j].0)
  {
    if table == [] then None
    else if Contains(s, table[0].0) then Some(0)
    else match FirstKey(table[1..], s)
      case None => None
      case Some(k) => Some(k + 1)
  }

  /** next(num for name, num in table if name in s): the month of the first contained name. */
  function MonthOf(table: seq<(string, nat)>, s: string): (r: Option<nat>)
    ensures r.Some? <==> exists j :: 0 <= j < |table| && Contains(s, table[j].0)
  {
    match FirstKey(table, s)
    case None => None
    case Some(k) => Some(table[k].1)
  }

  /** Every month either table gives is 1 to 12. */
  lemma MonthInRange(s: string)
    ensures MonthOf(BasicMonths, s).Some? ==> 1 <= MonthOf(BasicMonths, s).value <= 12
    ensures MonthOf(ExtendedMonths, s).Some? ==> 1 <= MonthOf(ExtendedMonths, s).value <= 12
  {
    BasicMonthNumbers();
    ExtendedSameMonth(s);
  }

  /** The abbreviations are numbered 1 to 12. */
  lemma BasicMonthNumbers()
    ensures forall j :: 0 <= j < |BasicMonths| ==> 1 <= BasicMonths[j].1 <= 12
  {
  }

  /** A name that occurs in `s` has each of its prefixes occurring in `s` too. */
  lemma ContainsPrefix(s: string, short: string, long: string)
    requires StartsWith(long, short) && Contains(s, long)
    ensures Contains(s, short)
  {
    ContainsIff(s, long);
    ContainsIff(s, short);
    var i :| SliceAt(s, long, i);
    assert s[i..i + |short|] == long[..|short|];
    assert SliceAt(s, short, i);
  }

  /**
   * The table is a run of groups, each led by an abbreviation and followed
   * by longer spellings that start with it and carry the same month.
   */
  predicate GroupedAfter(ext: seq<(string, nat)>, basic: seq<(string, nat)>)
    decreases |ext|, |basic|
  {
    if basic == [] then ext == []
    else ext != [] && ext[0] == basic[0] && ExtendsGroup(ext[1..], basic)
  }

  /** After a group's leader: longer spellings of the leader, then the next groups. */
  predicate ExtendsGroup(ext: seq<(string, nat)>, basic: seq<(string, nat)>)
    requires basic != []
    decreases |ext|, |basic|
  {
    if ext != [] && StartsWith(ext[0].0, basic[0].0) && ext[0].1 == basic[0].1 then ExtendsGroup(ext[1..], basic)
    else GroupedAfter(ext, basic[1..])
  }

  lemma {:induction false} GroupedMonth(ext: seq<(string, nat)>, basic: seq<(string, nat)>, s: string)
    requires GroupedAfter(ext, basic)
    ensures MonthOf(ext, s) == MonthOf(basic, s)
    decreases |ext|, |basic|
  {
    if basic != [] && !Contains(s, basic[0].0) {
      ExtendsMonth(ext[1..], basic, s);
      assert MonthOf(ext, s) == MonthOf(ext[1..], s);
    }
  }

  lemma {:induction false} ExtendsMonth(ext: seq<(string, nat)>, basic: seq<(string, nat)>, s: string)
    requires basic != [] && ExtendsGroup(ext, basic) && !Contains(s, basic[0].0)
    ensures MonthOf(ext, s) == MonthOf(basic, s)
    decreases |ext|, |basic|
  {
    assert MonthOf(basic, s) == MonthOf(basic[1..], s);
    if ext != [] && StartsWith(ext[0].0, basic[0].0) && ext[0].1 == basic[0].1 {
      if Contains(s, ext[0].0) {
        ContainsPrefix(s, basic[0].0, ext[0].0);
      }
      ExtendsMonth(ext[1..], basic, s);
      assert MonthOf(ext, s) == MonthOf(ext[1..], s);
    } else {
      GroupedMonth(ext, basic[1..], s);
    }
  }

  /**
   * The dictionary extractor's longer month table finds the same month as
   * the twelve abbreviations: every longer spelling starts with the
   * abbreviation listed just before it.
   */
  lemma ExtendedSameMonth(s: string)
    ensures MonthOf(ExtendedMonths, s) == MonthOf(BasicMonths, s)
  {
    MonthTablesShaped();
    ShapeGrouped(ExtendedMonths, BasicMonths);
    GroupedBridge(ExtendedMonths, BasicMonths, 0, 0);
    assert ExtendedMonths[0..] == ExtendedMonths && BasicMonths[0..] == BasicMonths;
    GroupedMonth(ExtendedMonths, BasicMonths, s);
  }

  /**
   * The grouping, by positions: GroupedAt(ext, basic, i, k) says that
   * ext[i..] is a run of groups led by basic[k..]; ExtendsAt that ext[i..]
   * first continues the group of basic[k].
   */
  predicate GroupedAt(ext: seq<(string, nat)>, basic: seq<(string, nat)>, i: nat, k: nat)
    requires i <= |ext| && k <= |basic|
    decreases |ext| - i, |basic| - k
  {
    if k == |basic| then i == |ext|
    else i < |ext| && ext[i] == basic[k] && ExtendsAt(ext, basic, i + 1, k)
  }

  predicate ExtendsAt(ext: seq<(string, nat)>, basic: seq<(string, nat)>, i: nat, k: nat)
    requires i <= |ext| && k < |basic|
    decreases |ext| - i, |basic| - k
  {
    if i < |ext| && StartsWith(ext[i].0, basic[k].0) && ext[i].1 == basic[k].1 then ExtendsAt(ext, basic, i + 1, k)
    else GroupedAt(ext, basic, i, k + 1)
  }

  lemma {:induction false} GroupedBridge(ext: seq<(string, nat)>, basic: seq<(string, nat)>, i: nat, k: nat)
    requires i <= |ext| && k <= |basic| && GroupedAt(ext, basic, i, k)
    ensures GroupedAfter(ext[i..], basic[k..])
    decreases |ext| - i, |basic| - k, 1
  {
    if k < |basic| {
      ExtendsBridge(ext, basic, i + 1, k);
      assert ext[i..][1..] == ext[i + 1..];
    }
  }

  lemma {:induction false} ExtendsBridge(ext: seq<(string, nat)>, basic: seq<(string, nat)>, i: nat, k: nat)
    requires i <= |ext| && k < |basic| && ExtendsAt(ext, basic, i, k)
    ensures ExtendsGroup(ext[i..], basic[k..])
    decreases |ext| - i, |basic| - k, 0
  {
    if i < |ext| && StartsWith(ext[i].0, basic[k].0) && ext[i].1 == basic[k].1 {
      ExtendsBridge(ext, basic, i + 1, k);
      assert ext[i..][1..] == ext[i + 1..];
    } else {
      GroupedBridge(ext, basic, i, k + 1);
      assert basic[k..][1..] == basic[k + 1..];
    }
  }

  /** Entry i of the longer table is a longer spelling of abbreviation k, with the same month. */
  predicate Continues(ext: seq<(string, nat)>, basic: seq<(string, nat)>, i: nat, k: nat) {
    i < |ext| && k < |basic| && StartsWith(ext[i].0, basic[k].0) && ext[i].1 == basic[k].1
  }

  /** Entry i of the longer table is abbreviation k itself, whose month differs from the one before. */
  predicate Leads(ext: seq<(string, nat)>, basic: seq<(string, nat)>, i: nat, k: nat) {
    i < |ext| && 0 < k < |basic| && ext[i] == basic[k] && basic[k].1 != basic[k - 1].1
  }

  /** The layout of the two month tables, entry by entry. */
  predicate MonthTableShape(ext: seq<(string, nat)>, basic: seq<(string, nat)>) {
    |ext| == 24 && |basic| == 12 &&
    ext[0] == basic[0] &&
    Continues(ext, basic, 1, 0) &&
    Leads(ext, basic, 2, 1) &&
    Continues(ext, basic, 3, 1) &&
    Leads(ext, basic, 4, 2) &&
    Continues(ext, basic, 5, 2) &&
    Leads(ext, basic, 6, 3) &&
    Continues(ext, basic, 7, 3) &&
    Leads(ext, basic, 8, 4) &&
    Leads(ext, basic, 9, 5) &&
    Continues(ext, basic, 10, 5) &&
    Leads(ext, basic, 11, 6) &&
    Continues(ext, basic, 12, 6) &&
    Leads(ext, basic, 13, 7) &&
    Continues(ext, basic, 14, 7) &&
    Leads(ext, basic, 15, 8) &&
    Continues(ext, basic, 16, 8) &&
    Continues(ext, basic, 17, 8) &&
    Leads(ext, basic, 18, 9) &&
    Continues(ext, basic, 19, 9) &&
    Leads(ext, basic, 20, 10) &&
    Continues(ext, basic, 21, 10) &&
    Leads(ext, basic, 22, 11) &&
    Continues(ext, basic, 23, 11)
  }

  lemma MonthShapeEarly()
    ensures ExtendedMonths[0] == BasicMonths[0] &&
      Continues(ExtendedMonths, BasicMonths, 1, 0) &&
      Leads(ExtendedMonths, BasicMonths, 2, 1) &&
      Continues(ExtendedMonths, BasicMonths, 3, 1) &&
      Leads(ExtendedMonths, BasicMonths, 4, 2) &&
      Continues(ExtendedMonths, BasicMonths, 5, 2) &&
      Leads(ExtendedMonths, BasicMonths, 6, 3) &&
      Continues(ExtendedMonths, BasicMonths, 7, 3)
  {
  }

  lemma MonthShapeMiddle()
    ensures Leads(ExtendedMonths, BasicMonths, 8, 4) &&
      Leads(ExtendedMonths, BasicMonths, 9, 5) &&
      Continues(ExtendedMonths, BasicMonths, 10, 5) &&
      Leads(ExtendedMonths, BasicMonths, 11, 6) &&
      Continues(ExtendedMonths, BasicMonths, 12, 6) &&
      Leads(ExtendedMonths, BasicMonths, 13, 7) &&
      Continues(ExtendedMonths, BasicMonths, 14, 7) &&
      Leads(ExtendedMonths, BasicMonths, 15, 8)
  {
  }

  lemma MonthShapeLate()
    ensures Continues(ExtendedMonths, BasicMonths, 16, 8) &&
      Continues(ExtendedMonths, BasicMonths, 17, 8) &&
      Leads(ExtendedMonths, BasicMonths, 18, 9) &&
      Continues(ExtendedMonths, BasicMonths, 19, 9) &&
      Leads(ExtendedMonths, BasicMonths, 20, 10) &&
      Continues(ExtendedMonths, BasicMonths, 21, 10) &&
      Leads(ExtendedMonths, BasicMonths, 22, 11) &&
      Continues(ExtendedMonths, BasicMonths, 23, 11)
  {
  }

  /** The month tables have the layout above. */
  lemma MonthTablesShaped()
    ensures MonthTableShape(ExtendedMonths, BasicMonths)
  {
    MonthShapeEarly();
    MonthShapeMiddle();
    MonthShapeLate();
  }

  /** Tables with that layout are grouped, read from the last entry back to the first. */
  lemma ShapeGrouped(ext: seq<(string, nat)>, basic: seq<(string, nat)>)
    requires MonthTableShape(ext, basic)
    ensures GroupedAt(ext, basic, 0, 0)
  {
    assert ExtendsAt(ext, basic, 24, 11);
    assert ExtendsAt(ext, basic, 23, 11);
    assert GroupedAt(ext, basic, 22, 11);
    assert ExtendsAt(ext, basic, 22, 10);
    assert ExtendsAt(ext, basic, 21, 10);
    assert GroupedAt(ext, basic, 20, 10);
    assert ExtendsAt(ext, basic, 20, 9);
    assert ExtendsAt(ext, basic, 19, 9);
    assert GroupedAt(ext, basic, 18, 9);
    assert ExtendsAt(ext, basic, 18, 8);
    assert ExtendsAt(ext, basic, 17, 8);
    assert ExtendsAt(ext, basic, 16, 8);
    assert GroupedAt(ext, basic, 15, 8);
    assert ExtendsAt(ext, basic, 15, 7);
    assert ExtendsAt(ext, basic, 14, 7);
    assert GroupedAt(ext, basic, 13, 7);
    assert ExtendsAt(ext, basic, 13, 6);
    assert ExtendsAt(ext, basic, 12, 6);
    assert GroupedAt(ext, basic, 11, 6);
    assert ExtendsAt(ext, basic, 11, 5);
    assert ExtendsAt(ext, basic, 10, 5);
    assert GroupedAt(ext, basic, 9, 5);
    assert ExtendsAt(ext, basic, 9, 4);
    assert GroupedAt(ext, basic, 8, 4);
    assert ExtendsAt(ext, basic, 8, 3);
    assert ExtendsAt(ext, basic, 7, 3);
    assert GroupedAt(ext, basic, 6, 3);
    assert ExtendsAt(ext, basic, 6, 2);
    assert ExtendsAt(ext, basic, 5, 2);
    assert GroupedAt(ext, basic, 4, 2);
    assert ExtendsAt(ext, basic, 4, 1);
    assert ExtendsAt(ext, basic, 3, 1);
    assert GroupedAt(ext, basic, 2, 1);
    assert ExtendsAt(ext, basic, 2, 0);
    assert ExtendsAt(ext, basic, 1, 0);
  }

  // ---------------------------------------------------------------------
  // The tools' extract_year_month / parse_release
  // ---------------------------------------------------------------------

  /**
   * extract_year_month of the harmonizers, the validation report and the
   * variable inventory, on a file-name stem.
   */
  function ExtractYearMonth(stem: string): (r: (Option<int>, Option<nat>))
    ensures r.0.Some? ==> 1990 <= r.0.value <= 2099
    ensures r.1.Some? ==> 1 <= r.1.value <= 12
    ensures r.1.None? <==> forall j :: 0 <= j < |BasicMonths| ==> !Contains(Upper(stem), BasicMonths[j].0)
  {
    MonthInRange(Upper(stem));
    (ScanYear(Upper(stem)), MonthOf(BasicMonths, Upper(stem)))
  }

  /** parse_release of the variable-inventory builder: the year is read from the stem as given. */
  function ParseRelease(stem: string): (r: (Option<int>, Option<nat>))
    ensures r == ExtractYearMonth(stem)
  {
    ScanYearUpper(stem);
    (ScanYear(stem), MonthOf(BasicMonths, Upper(stem)))
  }

  /**
   * The dictionary extractor's extract_year_month: a loop over the longer
   * table that stops at the first contained name.  It agrees with the
   * other tools on every name.
   */
  method ExtractYearMonthExtended(stem: string) returns (year: Option<int>, month: Option<nat>)
    ensures (year, month) == ExtractYearMonth(stem)
  {
    var name := Upper(stem);
    year := ScanYear(name);
    month := FirstMonth(ExtendedMonths, name);
    ExtendedSameMonth(name);
  }

  /** The loop over a month table: the month of the first name contained in `name`, if any. */
  method FirstMonth(table: seq<(string, nat)>, name: string) returns (month: Option<nat>)
    ensures month == MonthOf(table, name)
  {
    month := None;
    var i := 0;
    while i < |table|
      invariant 0 <= i <= |table|
      invariant forall j :: 0 <= j < i ==> !Contains(name, table[j].0)
    {
      if Contains(name, table[i].0) {
        assert FirstKey(table, name) == Some(i);
        return Some(table[i].1);
      }
      i := i + 1;
    }
  }
}
