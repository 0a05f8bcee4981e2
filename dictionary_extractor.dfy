/**
 * The dictionary extractor: reads each release's data dictionary (a
 * variable sheet and a value-set sheet), collects variable names and
 * value labels, and over all releases records in which years each
 * variable appears, groups the variables by naming prefix and lists the
 * variables found only within one era.
 */
module DictionaryExtractor {
  import opened Wrappers
  import opened Text
  import opened Cells
  import ReleaseNames
  import opened Seqs

  /** A spreadsheet row read without a header; a missing cell is None. */
  type Row = seq<Option<Cell>>

  type Sheet = seq<Row>

  /** row.iloc[i] when the row is that wide, else None. */
  function CellAt(row: Row, i: nat): Option<Cell> {
    if i < |row| then row[i] else None
  }

  /** Column of the variable name, and of its description, in the variable sheet. */
  const NameColumn: nat := 4
  const DescriptionColumn: nat := 5

  /** Longest name the extractor accepts as a variable. */
  const MaxNameLength: nat := 50

  // ---------------------------------------------------------------------
  // parse_dictionary_sheet
  // ---------------------------------------------------------------------

  datatype Variable = Variable(name: string, description: string)

  /** A stripped name that is a variable and not a filler, a marker or a header. */
  predicate KeptName(name: string) {
    !Contains(Upper(name), "FILLER") && !StartsWith(name, "_") &&
    name != "NaN" && name != "" && |name| <= MaxNameLength
  }

  /** The variable a row of the variable sheet names, if it names one. */
  function EntryOf(row: Row): Option<Variable> {
    match CellAt(row, NameColumn)
    case None => None
    case Some(c) =>
      var name := Strip(Render(c));
      if !KeptName(name) then None
      else
        var desc := match CellAt(row, DescriptionColumn) case None => "" case Some(d) => Strip(Render(d));
        Some(Variable(name, desc))
  }

  /**
   * A row yields a variable exactly when its name cell is present and,
   * stripped, passes every filter; the variable carries that stripped
   * name, and an empty description when the description cell is missing.
   */
  lemma EntryAccepted(row: Row)
    ensures var r := EntryOf(row);
      (r.Some? <==> CellAt(row, NameColumn).Some? && KeptName(Strip(Render(CellAt(row, NameColumn).value)))) &&
      (r.Some? ==> r.value.name == Strip(Render(CellAt(row, NameColumn).value))) &&
      (r.Some? && CellAt(row, DescriptionColumn).None? ==> r.value.description == "")
  {
  }

  /** The variables of a sheet, in row order. */
  function DictionaryEntries(sheet: Sheet): (r: seq<Variable>)
    ensures |r| <= |sheet|
  {
    Kept(Mapped(EntryOf, sheet))
  }

  /** parse_dictionary_sheet: the row loop appending each accepted variable. */
  method ParseDictionarySheet(sheet: Sheet) returns (variables: seq<Variable>)
    ensures variables == DictionaryEntries(sheet)
  {
    variables := [];
    var i := 0;
    while i < |sheet|
      invariant 0 <= i <= |sheet|
      invariant variables == Kept(Mapped(EntryOf, sheet[..i]))
    {
      variables := AddEntry(variables, sheet, i);
      i := i + 1;
    }
    WholePrefix(sheet, i);
  }

  /** One step of the row loop: the row's variable, when it has one, is appended. */
  method AddEntry(variables: seq<Variable>, sheet: Sheet, i: nat) returns (r: seq<Variable>)
    requires i < |sheet| && variables == Kept(Mapped(EntryOf, sheet[..i]))
    ensures r == Kept(Mapped(EntryOf, sheet[..i + 1]))
  {
    var o := EntryOf(sheet[i]);
    r := variables;
    if o.Some? {
      r := r + [o.value];
    }
    MappedPrefix(EntryOf, sheet, i);
    KeptSnoc(Mapped(EntryOf, sheet[..i]), o);
  }


  /** Rows are read independently and in order: the entries of two stacked sheets are stacked. */
  lemma EntriesAppend(a: Sheet, b: Sheet)
    ensures DictionaryEntries(a + b) == DictionaryEntries(a) + DictionaryEntries(b)
  {
    MappedAppend(EntryOf, a, b);
    KeptAppend(Mapped(EntryOf, a), Mapped(EntryOf, b));
  }

  /** Every accepted row contributes its variable, and every variable comes from an accepted row. */
  lemma EntriesExact(sheet: Sheet, v: Variable)
    ensures v in DictionaryEntries(sheet) <==> exists i :: 0 <= i < |sheet| && EntryOf(sheet[i]) == Some(v)
  {
    var rows := Mapped(EntryOf, sheet);
    KeptExact(rows, v);
    forall i | 0 <= i < |sheet| ensures rows[i] == EntryOf(sheet[i]) {
      MappedAt(EntryOf, sheet, i);
    }
  }

  // ---------------------------------------------------------------------
  // Value codes
  // ---------------------------------------------------------------------

  /** A value code: an integer, or the cell as found when it is not numeric text. */
  datatype Code = IntCode(n: int) | RawCode(raw: Cell)

  datatype ValueEntry = ValueEntry(code: Code, labelText: string)

  /** s.replace(c, ''). */
  function Without(s: string, c: char): (r: string)
    ensures |r| <= |s| && c !in r
  {
    if s == [] then [] else (if s[0] == c then [] else [s[0]]) + Without(s[1..], c)
  }

  /** Removing every '.' and '-' leaves a non-empty run of digits. */
  predicate NumericText(s: string) {
    var digits := Without(Without(s, '.'), '-');
    digits != [] && AllDigits(digits)
  }

  /**
   * int(float(s)) for text made of digits, '.' and '-': an optional sign,
   * digits, at most one point and digits after it, with at least one digit;
   * the fraction is dropped.  Anything else makes float() fail.
   */
  function TruncatedNumber(s: string): Option<int> {
    var negative := s != [] && s[0] == '-';
    var body := if negative then s[1..] else s;
    var whole := UpToChar(body, '.');
    var fraction := if |whole| < |body| then body[|whole| + 1..] else [];
    if AllDigits(whole) && AllDigits(fraction) && (whole != [] || fraction != []) then
      var v: int := DigitsValue(whole);
      Some(if negative then -v else v)
    else None
  }

  /**
   * The code of a value row: a number stays an integer; text that is
   * numeric once '.' and '-' are removed becomes int(float(text)), and
   * None when that conversion fails (the row is then dropped); other text
   * is kept as it is.
   */
  function CodeOf(c: Cell): Option<Code> {
    match c
    case Num(n) => Some(IntCode(n))
    case Str(s) =>
      if NumericText(s) then
        match TruncatedNumber(s)
        case Some(v) => Some(IntCode(v))
        case None => None
      else Some(RawCode(c))
  }

  /** An integer written out as text reads back as that integer's code. */
  lemma IntegerTextCode(n: int)
    ensures CodeOf(Str(IntToString(n))) == Some(IntCode(n))
  {
    var s := IntToString(n);
    var body := if n < 0 then s[1..] else s;
    assert AllDigits(body);
    assert body == NatToString(if n < 0 then -n else n);
    NatToStringValue(if n < 0 then -n else n);
    UpToCharAbsent(body, '.');
    WithoutDigits(s);
  }

  /** Splitting at a character the text does not hold gives the whole text. */
  lemma {:induction false} UpToCharAbsent(s: string, c: char)
    requires AllDigits(s) && !IsDigit(c)
    ensures UpToChar(s, c) == s
  {
    if s != [] {
      UpToCharAbsent(s[1..], c);
      assert s == [s[0]] + s[1..];
    }
  }

  /** Removing '.' and '-' from a rendered integer leaves its digits. */
  lemma WithoutDigits(s: string)
    requires s != [] && (AllDigits(s) || (s[0] == '-' && AllDigits(s[1..]) && |s| > 1))
    ensures NumericText(s)
  {
    var body := if AllDigits(s) then s else s[1..];
    WithoutKeepsDigits(body, '.');
    WithoutKeepsDigits(body, '-');
    if !AllDigits(s) {
      assert s == [s[0]] + body;
      assert Without(s, '.') == [s[0]] + Without(body, '.');
      assert Without(Without(s, '.'), '-') == Without(Without(body, '.'), '-');
    }
  }

  /** Removing a non-digit from a digit run changes nothing. */
  lemma {:induction false} WithoutKeepsDigits(s: string, c: char)
    requires AllDigits(s) && !IsDigit(c)
    ensures Without(s, c) == s
  {
    if s != [] {
      WithoutKeepsDigits(s[1..], c);
      assert s == [s[0]] + s[1..];
    }
  }

  /** A decimal code is truncated toward zero: "12.7" reads as 12 and "-3.9" as -3. */
  lemma DecimalCodesTruncate()
    ensures TruncatedNumber("12.7") == Some(12)
    ensures TruncatedNumber("-3.9") == Some(-3)
  {
    assert UpToChar("12.7", '.') == "12" by {
      assert "12.7"[1..] == "2.7";
      assert "2.7"[1..] == ".7";
    }
    assert "12.7"[3..] == "7";
    assert DigitsValue("12") == 12 by {
      assert "12"[..1] == "1";
    }
    assert "-3.9"[1..] == "3.9";
    assert UpToChar("3.9", '.') == "3" by {
      assert "3.9"[1..] == ".9";
    }
    assert "3.9"[2..] == "9";
    assert DigitsValue("3") == 3;
  }

  // ---------------------------------------------------------------------
  // parse_valueset_sheet
  // ---------------------------------------------------------------------

  /** A row whose first cell names a value set (it contains "_VS") starts that variable's block. */
  function HeaderName(row: Row): (r: Option<string>)
    ensures r.Some? ==> CellAt(row, 0).Some? && StartsWith(Render(CellAt(row, 0).value), r.value)
  {
    match CellAt(row, 0)
    case None => None
    case Some(c) =>
      if Contains(Render(c), "_VS") then Some(Before(Render(c), "_VS")) else None
  }

  /** A row with a label (column 2) and a code (column 3) gives a value entry when its code converts. */
  function ValueEntryOf(row: Row): (r: Option<ValueEntry>)
    ensures r.Some? ==> CellAt(row, 2).Some? && CellAt(row, 3).Some?
    ensures r.Some? ==> r.value.labelText == Strip(Render(CellAt(row, 2).value))
  {
    match (CellAt(row, 2), CellAt(row, 3))
    case (Some(lab), Some(code)) =>
      (match CodeOf(code)
       case Some(c) => Some(ValueEntry(c, Strip(Render(lab))))
       case None => None)
    case _ => None
  }

  /** The scan's state: the value sets so far, the current variable and its values. */
  datatype ScanState = ScanState(valuesets: map<string, seq<ValueEntry>>, current: Option<string>, values: seq<ValueEntry>)

  const Start := ScanState(map[], None, [])

  /** Value sets hold at least one value each. */
  predicate NoEmptySets(valuesets: map<string, seq<ValueEntry>>) {
    forall k :: k in valuesets ==> valuesets[k] != []
  }

  /** The current variable's values are stored when it has a (non-empty) name and at least one value. */
  function Flush(st: ScanState): (r: map<string, seq<ValueEntry>>)
    ensures NoEmptySets(st.valuesets) ==> NoEmptySets(r)
  {
    if st.current.Some? && st.current.value != [] && st.values != [] then st.valuesets[st.current.value := st.values]
    else st.valuesets
  }

  /** One row of the scan: a header flushes and starts a block; a value row extends the current one. */
  function Step(st: ScanState, row: Row): ScanState {
    match HeaderName(row)
    case Some(name) => ScanState(Flush(st), Some(name), [])
    case None =>
      match ValueEntryOf(row)
      case Some(e) => st.(values := st.values + [e])
      case None => st
  }

  function Scan(st: ScanState, rows: Sheet): ScanState {
    if rows == [] then st else Step(Scan(st, rows[..|rows| - 1]), rows[|rows| - 1])
  }

  /** The value sets of a sheet. */
  function Valuesets(sheet: Sheet): map<string, seq<ValueEntry>> {
    Flush(Scan(Start, sheet))
  }

  /** parse_valueset_sheet: the row-by-row state machine. */
  method ParseValuesetSheet(sheet: Sheet) returns (valuesets: map<string, seq<ValueEntry>>)
    ensures valuesets == Valuesets(sheet)
  {
    valuesets := map[];
    var current: Option<string> := None;
    var values: seq<ValueEntry> := [];
    var i := 0;
    while i < |sheet|
      invariant 0 <= i <= |sheet|
      invariant ScanState(valuesets, current, values) == Scan(Start, sheet[..i])
    {
      var row := sheet[i];
      match HeaderName(row) {
        case Some(name) =>
          if current.Some? && current.value != [] && values != [] {
            valuesets := valuesets[current.value := values];
          }
          current := Some(name);
          values := [];
        case None =>
          match ValueEntryOf(row) {
            case Some(e) => values := values + [e];
            case None =>
          }
      }
      PrefixStep(sheet, i);
      i := i + 1;
    }
    WholePrefix(sheet, i);
    if current.Some? && current.value != [] && values != [] {
      valuesets := valuesets[current.value := values];
    }
  }

  /** The scan never stores an empty value set. */
  lemma {:induction false} ScanNoEmptySets(st: ScanState, rows: Sheet)
    requires NoEmptySets(st.valuesets)
    ensures NoEmptySets(Scan(st, rows).valuesets)
  {
    if rows != [] {
      ScanNoEmptySets(st, rows[..|rows| - 1]);
    }
  }

  /** A variable is recorded only with at least one value. */
  lemma ValuesetsNonEmpty(sheet: Sheet)
    ensures NoEmptySets(Valuesets(sheet))
  {
    ScanNoEmptySets(Start, sheet);
  }

  /** Scanning two stacked pieces is scanning one after the other. */
  lemma {:induction false} ScanAppend(st: ScanState, a: Sheet, b: Sheet)
    ensures Scan(st, a + b) == Scan(Scan(st, a), b)
  {
    if b == [] {
      assert a + b == a;
    } else {
      ScanAppend(st, a, b[..|b| - 1]);
      SliceAppend(a, b);
    }
  }

  /** The value entries of rows, in order. */
  function EntriesOf(rows: Sheet): seq<ValueEntry> {
    if rows == [] then []
    else
      var last := ValueEntryOf(rows[|rows| - 1]);
      EntriesOf(rows[..|rows| - 1]) + (if last.Some? then [last.value] else [])
  }

  predicate NoHeaders(rows: Sheet) {
    forall i :: 0 <= i < |rows| ==> HeaderName(rows[i]).None?
  }

  /** Rows without a header only extend the current values. */
  lemma {:induction false} ScanValueRows(st: ScanState, rows: Sheet)
    requires NoHeaders(rows)
    ensures Scan(st, rows) == st.(values := st.values + EntriesOf(rows))
  {
    if rows != [] {
      var front, last := rows[..|rows| - 1], rows[|rows| - 1];
      assert forall i :: 0 <= i < |front| ==> front[i] == rows[i];
      ScanValueRows(st, front);
      assert HeaderName(last).None?;
      StepValueRow(Scan(st, front), last);
      AppendAssoc(st.values, EntriesOf(front), if ValueEntryOf(last).Some? then [ValueEntryOf(last).value] else []);
    }
  }

  /** A row without a header adds its value entry, if it has one, and nothing else. */
  lemma StepValueRow(st: ScanState, row: Row)
    requires HeaderName(row).None?
    ensures Step(st, row) == st.(values := st.values + if ValueEntryOf(row).Some? then [ValueEntryOf(row).value] else [])
  {
  }

  /** Values before the first header belong to no variable: a sheet without headers has no value sets. */
  lemma NoHeaderNoValuesets(sheet: Sheet)
    requires NoHeaders(sheet)
    ensures Valuesets(sheet) == map[]
  {
    ScanValueRows(Start, sheet);
  }

  /**
   * The last block of a variable wins: whatever came before, a header
   * for `name` followed by value rows and no further header records
   * exactly those rows' values under `name`.
   */
  lemma LastBlockWins(before: Sheet, header: Row, after: Sheet, name: string)
    requires HeaderName(header) == Some(name) && name != []
    requires NoHeaders(after) && EntriesOf(after) != []
    ensures name in Valuesets(before + [header] + after)
    ensures Valuesets(before + [header] + after)[name] == EntriesOf(after)
  {
    ScanAppend(Start, before + [header], after);
    ScanAppend(Start, before, [header]);
    var st := Scan(Start, before + [header]);
    assert [header][..0] == [];
    assert st == ScanState(Flush(Scan(Start, before)), Some(name), []);
    ScanValueRows(st, after);
  }

  // ---------------------------------------------------------------------
  // analyze_dictionary_file
  // ---------------------------------------------------------------------

  datatype DictionaryFile = DictionaryFile(
    filename: string,
    year: Option<int>,
    month: Option<nat>,
    variables: seq<Variable>,
    valuesets: map<string, seq<ValueEntry>>,
    error: Option<string>)

  /** Reading one sheet of a workbook: its rows, or the message of the exception raised. */
  datatype SheetRead = Read(sheet: Sheet) | Failed(message: string)

  /** Opening a workbook: the reads of its sheets in order, or the message of the exception raised. */
  datatype WorkbookRead = Unopened(message: string) | Opened(sheets: seq<SheetRead>)

  /** The sheet at position i was read, when the workbook has one there. */
  predicate SheetOk(book: WorkbookRead, i: nat) {
    book.Opened? && i < |book.sheets| && book.sheets[i].Read?
  }

  /** Reading the sheet at position i raised, when the workbook has one there. */
  predicate SheetFailed(book: WorkbookRead, i: nat) {
    book.Opened? && i < |book.sheets| && book.sheets[i].Failed?
  }

  /**
   * One dictionary workbook: the first sheet, when there is one, gives the
   * variables and then the second, when there is one, the value sets.  The
   * first exception (opening the workbook, reading the first sheet, reading
   * the second) ends the analysis: its message becomes the error and what
   * was parsed before it is kept.
   */
  function AnalyzeDictionaryFile(filename: string, stem: string, book: WorkbookRead): (r: DictionaryFile)
    ensures (r.year, r.month) == ReleaseNames.ExtractYearMonth(stem)
    ensures r.error.Some? <==> book.Unopened? || SheetFailed(book, 0) || (SheetOk(book, 0) && SheetFailed(book, 1))
    ensures book.Unopened? ==> r.error == Some(book.message)
    ensures SheetFailed(book, 0) ==> r.error == Some(book.sheets[0].message)
    ensures SheetOk(book, 0) && SheetFailed(book, 1) ==> r.error == Some(book.sheets[1].message)
    ensures SheetOk(book, 0) ==> r.variables == DictionaryEntries(book.sheets[0].sheet)
    ensures !SheetOk(book, 0) ==> r.variables == []
    ensures SheetOk(book, 0) && SheetOk(book, 1) ==> r.valuesets == Valuesets(book.sheets[1].sheet)
    ensures !(SheetOk(book, 0) && SheetOk(book, 1)) ==> r.valuesets == map[]
  {
    var (year, month) := ReleaseNames.ExtractYearMonth(stem);
    match book
    case Unopened(m) => DictionaryFile(filename, year, month, [], map[], Some(m))
    case Opened(s) =>
      if |s| == 0 then DictionaryFile(filename, year, month, [], map[], None)
      else match s[0]
        case Failed(m) => DictionaryFile(filename, year, month, [], map[], Some(m))
        case Read(first) =>
          var vars := DictionaryEntries(first);
          if |s| == 1 then DictionaryFile(filename, year, month, vars, map[], None)
          else match s[1]
            case Failed(m) => DictionaryFile(filename, year, month, vars, map[], Some(m))
            case Read(second) => DictionaryFile(filename, year, month, vars, Valuesets(second), None)
  }

  // ---------------------------------------------------------------------
  // Years per variable, variables per year
  // ---------------------------------------------------------------------

  function YearsOf(m: map<string, set<int>>, v: string): set<int> {
    if v in m then m[v] else {}
  }

  function VarsOf(m: map<int, set<string>>, y: int): set<string> {
    if y in m then m[y] else {}
  }

  /** var_years[name].add(year) for every name. */
  function AddYear(m: map<string, set<int>>, names: seq<string>, year: int): map<string, set<int>> {
    if names == [] then m
    else
      var prev := AddYear(m, names[..|names| - 1], year);
      var v := names[|names| - 1];
      prev[v := YearsOf(prev, v) + {year}]
  }

  /** year_vars[year].add(name) for every name. */
  function AddVars(m: map<int, set<string>>, names: seq<string>, year: int): map<int, set<string>> {
    if names == [] then m
    else
      var prev := AddVars(m, names[..|names| - 1], year);
      prev[year := VarsOf(prev, year) + {names[|names| - 1]}]
  }

  /** Adding a file's names adds its year to exactly those names. */
  lemma {:induction false} AddYearMember(m: map<string, set<int>>, names: seq<string>, year: int, v: string, y: int)
    ensures y in YearsOf(AddYear(m, names, year), v) <==> y in YearsOf(m, v) || (y == year && v in names)
  {
    if names != [] {
      var front := names[..|names| - 1];
      AddYearMember(m, front, year, v, y);
      assert names == front + [names[|names| - 1]];
    }
  }

  /** Adding a file's names adds exactly those names under its year. */
  lemma {:induction false} AddVarsMember(m: map<int, set<string>>, names: seq<string>, year: int, v: string, y: int)
    ensures v in VarsOf(AddVars(m, names, year), y) <==> v in VarsOf(m, y) || (y == year && v in names)
  {
    if names != [] {
      var front := names[..|names| - 1];
      AddVarsMember(m, front, year, v, y);
      assert names == front + [names[|names| - 1]];
    }
  }

  /** The upper-cased names of a file's variables. */
  function UpperNames(vars: seq<Variable>): (r: seq<string>)
    ensures |r| == |vars| && forall i :: 0 <= i < |vars| ==> r[i] == Upper(vars[i].name)
  {
    if vars == [] then [] else UpperNames(vars[..|vars| - 1]) + [Upper(vars[|vars| - 1].name)]
  }

  /**
   * A file contributes when its year was detected and it has no error; an
   * empty error message is falsy and does not stop it.
   */
  predicate Counted(f: DictionaryFile) {
    f.year.Some? && (f.error.None? || f.error.value == "")
  }

  function VarYears(files: seq<DictionaryFile>): map<string, set<int>> {
    if files == [] then map[]
    else
      var f := files[|files| - 1];
      var prev := VarYears(files[..|files| - 1]);
      if Counted(f) then AddYear(prev, UpperNames(f.variables), f.year.value) else prev
  }

  function YearVars(files: seq<DictionaryFile>): map<int, set<string>> {
    if files == [] then map[]
    else
      var f := files[|files| - 1];
      var prev := YearVars(files[..|files| - 1]);
      if Counted(f) then AddVars(prev, UpperNames(f.variables), f.year.value) else prev
  }

  /** The accumulation loop over the analysed dictionaries. */
  method Accumulate(files: seq<DictionaryFile>) returns (varYears: map<string, set<int>>, yearVars: map<int, set<string>>)
    ensures varYears == VarYears(files) && yearVars == YearVars(files)
  {
    varYears, yearVars := map[], map[];
    var i := 0;
    while i < |files|
      invariant 0 <= i <= |files|
      invariant varYears == VarYears(files[..i]) && yearVars == YearVars(files[..i])
    {
      var f := files[i];
      PrefixStep(files, i);
      if Counted(f) {
        var year := f.year.value;
        var names := UpperNames(f.variables);
        var before, beforeVars := varYears, yearVars;
        var j := 0;
        while j < |names|
          invariant 0 <= j <= |names|
          invariant varYears == AddYear(before, names[..j], year)
          invariant yearVars == AddVars(beforeVars, names[..j], year)
        {
          var v := names[j];
          varYears := varYears[v := YearsOf(varYears, v) + {year}];
          yearVars := yearVars[year := VarsOf(yearVars, year) + {v}];
          PrefixStep(names, j);
          j := j + 1;
        }
        WholePrefix(names, j);
      }
      i := i + 1;
    }
    WholePrefix(files, i);
  }

  /** The two indexes agree: a variable lists a year exactly when that year lists the variable. */
  lemma {:induction false} IndexesAgree(files: seq<DictionaryFile>)
    ensures forall v, y :: y in YearsOf(VarYears(files), v) <==> v in VarsOf(YearVars(files), y)
  {
    if files != [] {
      var front := files[..|files| - 1];
      IndexesAgree(front);
      var f := files[|files| - 1];
      if Counted(f) {
        var names := UpperNames(f.variables);
        forall v, y ensures y in YearsOf(VarYears(files), v) <==> v in VarsOf(YearVars(files), y) {
          AddYearMember(VarYears(front), names, f.year.value, v, y);
          AddVarsMember(YearVars(front), names, f.year.value, v, y);
        }
      }
    }
  }

  /** The file is counted, is of year `y` and lists `v`. */
  predicate Lists(f: DictionaryFile, v: string, y: int) {
    Counted(f) && f.year.value == y && v in UpperNames(f.variables)
  }

  /** One more file adds its year to exactly the names it lists. */
  lemma YearsStep(files: seq<DictionaryFile>, v: string, y: int)
    requires files != []
    ensures y in YearsOf(VarYears(files), v) <==>
      y in YearsOf(VarYears(files[..|files| - 1]), v) || Lists(files[|files| - 1], v, y)
  {
    var f := files[|files| - 1];
    if Counted(f) {
      AddYearMember(VarYears(files[..|files| - 1]), UpperNames(f.variables), f.year.value, v, y);
    }
  }

  /** A variable is indexed under a year exactly when a counted file of that year lists it. */
  lemma {:induction false} YearsListed(files: seq<DictionaryFile>, v: string, y: int)
    ensures y in YearsOf(VarYears(files), v) <==> exists i :: 0 <= i < |files| && Lists(files[i], v, y)
  {
    if files != [] {
      var front := files[..|files| - 1];
      YearsListed(front, v, y);
      YearsStep(files, v, y);
      if exists i :: 0 <= i < |files| && Lists(files[i], v, y) {
        var i :| 0 <= i < |files| && Lists(files[i], v, y);
        if i < |front| {
          assert front[i] == files[i];
        }
      }
      if y in YearsOf(VarYears(front), v) {
        var i :| 0 <= i < |front| && Lists(front[i], v, y);
        assert files[i] == front[i];
      }
    }
  }

  // ---------------------------------------------------------------------
  // Variables by naming prefix
  // ---------------------------------------------------------------------

  datatype Bucket = PufC | PufOther | CC | CDigits | ADigits | JDigits | BDigits | Other

  /** The name starts with the letter followed by a digit. */
  predicate LetterDigit(v: string, letter: char) {
    |v| >= 2 && v[0] == letter && IsDigit(v[1])
  }

  /** The prefix group of a variable, tested in the order PUFC, PUF, CC, C#, A#, J#, B#. */
  function BucketOf(v: string): Bucket {
    if StartsWith(v, "PUFC") then PufC
    else if StartsWith(v, "PUF") then PufOther
    else if StartsWith(v, "CC") then CC
    else if LetterDigit(v, 'C') then CDigits
    else if LetterDigit(v, 'A') then ADigits
    else if LetterDigit(v, 'J') then JDigits
    else if LetterDigit(v, 'B') then BDigits
    else Other
  }

  function Members(m: map<Bucket, seq<string>>, b: Bucket): seq<string> {
    if b in m then m[b] else []
  }

  /** prefixes: each variable appended to its group, in the order given. */
  function Buckets(vars: seq<string>): map<Bucket, seq<string>> {
    if vars == [] then map[]
    else
      var prev := Buckets(vars[..|vars| - 1]);
      var v := vars[|vars| - 1];
      prev[BucketOf(v) := Members(prev, BucketOf(v)) + [v]]
  }

  /** The grouping loop. */
  method GroupByPrefix(vars: seq<string>) returns (buckets: map<Bucket, seq<string>>)
    ensures buckets == Buckets(vars)
  {
    buckets := map[];
    var i := 0;
    while i < |vars|
      invariant 0 <= i <= |vars|
      invariant buckets == Buckets(vars[..i])
    {
      var b := BucketOf(vars[i]);
      buckets := buckets[b := Members(buckets, b) + [vars[i]]];
      PrefixStep(vars, i);
      i := i + 1;
    }
    WholePrefix(vars, i);
  }

  /** Each group holds exactly the variables of its prefix, in order. */
  lemma {:induction false} BucketsExact(vars: seq<string>, b: Bucket)
    ensures Members(Buckets(vars), b) == Filter(vars, b)
  {
    if vars != [] {
      BucketsExact(vars[..|vars| - 1], b);
    }
  }

  /** The variables of one prefix group, in order. */
  function Filter(vars: seq<string>, b: Bucket): (r: seq<string>)
    ensures forall v :: v in r <==> v in vars && BucketOf(v) == b
  {
    if vars == [] then []
    else
      var v := vars[|vars| - 1];
      Filter(vars[..|vars| - 1], b) + (if BucketOf(v) == b then [v] else [])
  }

  function AllBuckets(): seq<Bucket> {
    [PufC, PufOther, CC, CDigits, ADigits, JDigits, BDigits, Other]
  }

  /** Total size of the groups. */
  function GroupSizes(m: map<Bucket, seq<string>>, bs: seq<Bucket>): nat {
    if bs == [] then 0 else GroupSizes(m, bs[..|bs| - 1]) + |Members(m, bs[|bs| - 1])|
  }

  /** A variable is in a group exactly when it was given and the group is its prefix's. */
  lemma BucketsMembers(vars: seq<string>)
    ensures forall v, b :: v in Members(Buckets(vars), b) <==> v in vars && BucketOf(v) == b
  {
    forall v, b ensures v in Members(Buckets(vars), b) <==> v in vars && BucketOf(v) == b {
      BucketsExact(vars, b);
    }
  }

  /** The groups partition the variables: each lands in exactly one, so the sizes add up. */
  lemma {:induction false} BucketsPartition(vars: seq<string>)
    ensures GroupSizes(Buckets(vars), AllBuckets()) == |vars|
  {
    if vars == [] {
      SizesEmpty(AllBuckets());
    } else {
      var front := vars[..|vars| - 1];
      BucketsPartition(front);
      var bs := AllBuckets();
      var v := vars[|vars| - 1];
      assert Buckets(vars) == Buckets(front)[BucketOf(v) := Members(Buckets(front), BucketOf(v)) + [v]];
      assert forall i, j :: 0 <= i < j < |bs| ==> bs[i] != bs[j];
      assert BucketOf(vars[|vars| - 1]) in bs;
      SizesStep(Buckets(front), BucketOf(vars[|vars| - 1]), vars[|vars| - 1], bs);
    }
  }

  /** No group has members before any variable is seen. */
  lemma {:induction false} SizesEmpty(bs: seq<Bucket>)
    ensures GroupSizes(map[], bs) == 0
  {
    if bs != [] {
      SizesEmpty(bs[..|bs| - 1]);
    }
  }

  /** Appending one name to one group adds one to the total when that group is listed once. */
  lemma {:induction false} SizesStep(m: map<Bucket, seq<string>>, b: Bucket, v: string, bs: seq<Bucket>)
    requires forall i, j :: 0 <= i < j < |bs| ==> bs[i] != bs[j]
    ensures GroupSizes(m[b := Members(m, b) + [v]], bs) == GroupSizes(m, bs) + (if b in bs then 1 else 0)
  {
    if bs != [] {
      var front := bs[..|bs| - 1];
      SizesStep(m, b, v, front);
      assert b in bs <==> b in front || b == bs[|bs| - 1];
    }
  }

  // ---------------------------------------------------------------------
  // Variables found only within one era
  // ---------------------------------------------------------------------

  /** The eras of the report: name, first year, and the year after the last. */
  const Eras: seq<(string, int, int)> :=
    [("2005-2011", 2005, 2012), ("2012-2016", 2012, 2017), ("2017-2020", 2017, 2021), ("2021-2024", 2021, 2025)]

  /** The years of the era that some dictionary covers. */
  function EraYears(yearVars: map<int, set<string>>, lo: int, hi: int): set<int> {
    set y | y in yearVars && lo <= y < hi
  }

  /** Every variable of any year of the era. */
  function EraVars(yearVars: map<int, set<string>>, era: set<int>): set<string> {
    set y, v | y in era && y in yearVars && v in yearVars[y] :: v
  }

  /** The era's variables whose years all fall inside the era. */
  function OnlyInEra(varYears: map<string, set<int>>, yearVars: map<int, set<string>>, lo: int, hi: int): set<string> {
    var era := EraYears(yearVars, lo, hi);
    set v | v in EraVars(yearVars, era) && YearsOf(varYears, v) <= era
  }

  /**
   * Over the indexes the extractor builds, a variable is era-only exactly
   * when it appears in some year and every year it appears in lies in the era.
   */
  lemma OnlyInEraExact(files: seq<DictionaryFile>, lo: int, hi: int, v: string)
    ensures var vy := VarYears(files);
      v in OnlyInEra(vy, YearVars(files), lo, hi) <==>
        YearsOf(vy, v) != {} && forall y :: y in YearsOf(vy, v) ==> lo <= y < hi
  {
    var vy := VarYears(files);
    var yv := YearVars(files);
    IndexesAgree(files);
    var era := EraYears(yv, lo, hi);
    if YearsOf(vy, v) != {} && forall y :: y in YearsOf(vy, v) ==> lo <= y < hi {
      var y :| y in YearsOf(vy, v);
      assert v in VarsOf(yv, y);
      assert y in era;
      assert v in EraVars(yv, era);
      forall z | z in YearsOf(vy, v) ensures z in era {
        assert v in VarsOf(yv, z);
      }
    }
    if v in OnlyInEra(vy, yv, lo, hi) {
      var y :| y in era && y in yv && v in yv[y];
      assert v in VarsOf(yv, y);
      assert y in YearsOf(vy, v);
    }
  }
}
