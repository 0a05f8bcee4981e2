# LFS harmonization, modelled in Dafny

The repository harmonizes releases of the Labour Force Survey (LFS) public-use
files of the Philippine Statistics Authority. Each release is a CSV table whose
column names and code lists change from era to era. The harmonizer maps every
release onto one output schema.

For each target field, a column resolver picks the first source-name variant
from a priority list that is present (compared case-insensitively) and holds a
value. The codes of that column are then cleaned and passed through an
era-banded translator (marital status, highest grade, class of worker, reason
for not working, and so on).

Every release gets a diagnostic report:

- raw, cleaned and final non-null counts;
- translation loss;
- retention per field.

The year and month come from the file name, with a fallback to the year
columns of the data. A cross-release summary then aggregates the reports. The
earlier generation of the harmonizer is modelled beside the current one: it
adds four summary recoders and locks year and month differently.

Small tools around the harmonizer are modelled too:

- the pre-harmonization validation report, which discovers sources and classifies issues;
- the dictionary extractor, which holds the variable-sheet filter, the `_VS` value-set state machine, the year indexes, the prefix groups and the era-only variables;
- the variable inventory of CSV headers, with gap detection and the reverse variant map;
- the value-set parser, which splits blocks on blank rows and expands code ranges;
- the variable-inventory builder over dictionary workbooks, which builds the presence matrix and the per-variable summary;
- the cross-reference of the priority lists against that inventory;
- the crosswalk-driven harmonizer, with its employment-status precedence.

Modelling conventions:

- A cell is `Num(int)` or `Str(string)`, and a missing cell is `None`.
- A column carries a flag for the text dtype.
- Coerced codes are `Option<int>`.
- The configuration tables (priority lists, output schemas, translation map, derived fields) are constants of `HarmonizerConfig`. They are passed as parameters where the code only uses them.
- Loops in the source are methods with loop invariants. Each is proved equal to a specification function, and the lemmas state what the source promises about that function.

Modules and files:

| module | file | source |
|---|---|---|
| `Wrappers` | `wrappers.dfy` | `Option` |
| `Text` | `text.dfy` | upper/lower/strip, split, join, `str`/`int` of integers |
| `Seqs` | `seqs.dfy` | filtering, mapping, first-of, de-duplication |
| `Cells` | `cells.dfy` | `safe_numeric`/`safe_int`, `clean_column`, non-null counts |
| `ReleaseNames` | `release_names.dfy` | every `extract_year_month` and `parse_release` |
| `Resolver` | `resolver.dfy` | `get_column` of both harmonizer generations |
| `Translators` | `translators.dfy` | `translate_*` |
| `SummaryRecoders` | `summary_recoders.dfy` | `harm_*` |
| `HarmonizerConfig` | `harmonizer_config.dfy` | `COLUMN_PRIORITY`, `OUTPUT_SCHEMA`, `TRANSLATION_MAP`, derived fields |
| `HarmonizerV8` | `harmonizer_v8.dfy` | `process_file` of the current generation |
| `Coverage` | `coverage.dfy` | `build_column_summary`, `save_coverage_matrix` |
| `HarmonizerV7` | `harmonizer_v7.dfy` | `process_file` of the earlier generation |
| `ValidationReport` | `validation_report.dfy` | `analyze_file`, `generate_report` |
| `DictionaryExtractor` | `dictionary_extractor.dfy` | `parse_dictionary_sheet`, `parse_valueset_sheet`, `analyze_all_dictionaries` |
| `VariableInventory` | `variable_inventory.dfy` | `build_reverse_map`, `detect_gaps`, `scan_all_files` |
| `ValuesetParser` | `valueset_parser.dfy` | `split_into_blocks`, `extract_valueset`, `parse_dictionary_valuesets` |
| `BuildVariableInventory` | `build_variable_inventory.dfy` | `read_variables` and `main` |
| `CrossReference` | `crossref.dfy` | the per-target coverage loop and the coverage levels |
| `Crosswalk` | `crosswalk.dfy` | the crosswalk selection loop |

## Model

| member | source | states |
|---|---|---|
| Text.Upper | lfs_harmonizer_complete_v8.py:472 | upper-casing keeps the length and maps each ASCII lower-case letter to its capital, leaving every other character alone |
| Text.Lower | variable_inventory.py:200 | lower-casing keeps the length and maps each ASCII capital to its lower-case letter |
| Text.UpperIdempotent | lfs_harmonizer_complete_v8.py:216 | upper-casing an already upper-cased name changes nothing, so upper-cased keys compare consistently |
| Text.Strip | build_variable_inventory.py:76 | the stripped text is a slice of the input with no surrounding whitespace (the ASCII set str.strip() removes: tab to carriage return, the separators 0x1C-0x1F and space), and it is empty exactly when the input is all whitespace |
| Text.UpToChar | lfs_validation_report.py:235 | the part before the first separator is a prefix of the text that contains no separator, and the separator follows it when the text is longer |
| Text.Before | lfs_dictionary_extractor.py:90 | the part before the first occurrence of a separator is a prefix; it is the whole text when the separator does not occur, and otherwise ends at the first occurrence |
| Text.Join | variable_inventory.py:173-176 | joining no parts gives the empty text, and joining one part gives that part |
| Text.JoinSnoc | variable_inventory.py:173-176 | appending a part to a non-empty list of parts adds the separator and then the part to the joined text |
| Text.IntToString | variable_inventory.py:174 | the decimal rendering of an integer is non-empty digits, with a leading minus sign for a negative number |
| Text.ParseInt | lfs_harmonizer_complete_v8.py:202 | a successful integer parse reads a non-empty text |
| Text.ParseRendered | lfs_harmonizer_complete_v8.py:202 | rendering an integer and parsing it back gives the integer |
| Seqs.FirstIn | crossref_column_priority.py:71 | the result is the first position holding a member of the set, no earlier position holds one, and there is none exactly when no position does |
| Seqs.UniqueExact | build_variable_inventory.py:137-138 | de-duplication keeps each element exactly once and loses none |
| Cells.Render | lfs_validation_report.py:129 | the rendering of a text cell is its text, and the rendering of a number parses back to that number |
| Cells.CountSome | lfs_harmonizer_complete_v8.py:502 | the non-null count is at most the number of rows |
| Cells.CountSomeZero | lfs_harmonizer_complete_v8.py:218-219 | the non-null count is zero exactly when every cell is missing |
| Cells.CountSomeMono | lfs_harmonizer_complete_v8.py:509-510 | a column whose values all sit where another column has values counts no more than it |
| Cells.CountSomeLoss | lfs_harmonizer_complete_v8.py:510 | the drop in the non-null count equals the number of rows that lost their value |
| Cells.Coerce | lfs_harmonizer_complete_v8.py:195-208 | a missing cell stays missing and a number stays itself; text that strips to a missing-value spelling is missing, and a code read from text is the stripped text parsed as a signed integer |
| Cells.OfCode | lfs_harmonizer_complete_v8.py:507 | a cleaned code fed back to a translator coerces to the same code |
| Cells.CoerceRendered | lfs_harmonizer_complete_v8.py:199-203 | the text form of an integer coerces back to that integer |
| Cells.CleanColumn | lfs_harmonizer_complete_v8.py:210-211 | cleaning keeps the rows and coerces every cell on its own |
| Cells.CleanNoMore | lfs_harmonizer_complete_v8.py:502-504 | cleaning never creates values, so the cleaned non-null count is at most the raw one |
| Cells.CleanNumeric | lfs_harmonizer_complete_v8.py:502-504 | a numeric column loses no value through cleaning |
| Cells.ContentHasValue | lfs_harmonizer_complete_v8.py:218-219 | a column the resolver accepts has at least one non-null cell |
| Cells.PercentComplement | lfs_harmonizer_complete_v8.py:520-522 | retention and null share of a non-empty table lie in 0..100 and add up to 100 |
| ReleaseNames.ScanYear | lfs_harmonizer_complete_v8.py:411-412 | the year found lies in 1990..2099, and a year is found exactly when the pattern matches somewhere in the name |
| ReleaseNames.MatchFrom | lfs_harmonizer_complete_v8.py:411 | the regular-expression search returns the leftmost match at or after the start, with no match before it, and none when nothing matches |
| ReleaseNames.ScanRenderedYear | variable_inventory.py:112-113 | a name that starts with a year from 1990 to 2099 yields that year, whatever follows |
| ReleaseNames.ScanYearUpper | build_variable_inventory.py:41 | searching the upper-cased name finds the same year as searching the name as given |
| ReleaseNames.FirstKey | variable_inventory.py:114 | the month entry chosen is the first whose name occurs in the text; no earlier entry occurs, and there is none exactly when no entry occurs |
| ReleaseNames.MonthOf | variable_inventory.py:114 | a month is found exactly when some month name occurs in the text |
| ReleaseNames.MonthInRange | variable_inventory.py:110-111 | both month tables only give months 1 to 12 |
| ReleaseNames.ExtendedSameMonth | lfs_dictionary_extractor.py:26-37 | the longer table with full month names finds the same month as the twelve abbreviations |
| ReleaseNames.ExtractYearMonth | lfs_harmonizer_complete_v8.py:408-414 | the year lies in 1990..2099 and the month in 1..12, and the month is missing exactly when no abbreviation occurs in the upper-cased name |
| ReleaseNames.ParseRelease | build_variable_inventory.py:39-47 | the inventory builder reads the same year and month from a release name as the harmonizers |
| ReleaseNames.ExtractYearMonthExtended | lfs_dictionary_extractor.py:23-39 | the dictionary extractor's loop with early exit agrees with the other tools on every name |
| Resolver.Variants | lfs_harmonizer_complete_v8.py:215 | a target's variants are its priority list, or the target alone when it has none |
| Resolver.ColMapUpper | lfs_harmonizer_complete_v8.py:472 | every key of the upper-cased column map leads to a column of the table |
| Resolver.ColMapHasHeader | lfs_harmonizer_complete_v8.py:472 | every header, upper-cased, is a key of the column map |
| Resolver.ColMapLastWins | lfs_harmonizer_complete_v8.py:472 | a key leads to a header that upper-cases to it, and no later header does: the last such header wins |
| Resolver.FirstUsable | lfs_harmonizer_complete_v8.py:215-226 | the variant chosen is usable and no earlier one is, and there is none exactly when no variant is usable |
| Resolver.GetColumn | lfs_harmonizer_complete_v8.py:213-227 | column and source are missing together, exactly when no variant is usable; otherwise the source is usable and the column is the one its upper-cased name maps to |
| Resolver.GetColumnOnly | lfs_harmonizer_complete.py:201-215 | the earlier generation finds the same column, and nothing exactly when no variant is usable |
| Resolver.EarlierWins | lfs_harmonizer_complete_v8.py:215-225 | while an earlier variant is usable, a later one is never chosen, however full its column is |
| Resolver.EmptySkipped | lfs_harmonizer_complete_v8.py:218-226 | an all-missing (for text, all-blank) first variant is passed over as if it were absent |
| Translators.MstatCode | lfs_harmonizer_complete_v8.py:301-307 | codes are kept from 2024; before that only codes 1-5 (to 2010) or 1-6 (2011-2023) are accepted, and they land in the harmonized codes {1, 2, 4, 6, 7, 8} |
| Translators.MstatInjective | lfs_harmonizer_complete_v8.py:304-306 | within one era, different source codes never give the same harmonized code |
| Translators.MstatEras | lfs_harmonizer_complete_v8.py:304-306 | the 2011-2014 table extends the earlier one with code 6, and the 2015-2023 table swaps which codes give 7 and 8 |
| Translators.GradeCode | lfs_harmonizer_complete_v8.py:309-354 | codes are kept from 2023; in 2019-2022 exactly the harmonized grade codes are accepted, and those above 1000 are kept unchanged; every era up to 2022 yields only harmonized codes |
| Translators.GradeOlderErasStable | lfs_harmonizer_complete_v8.py:349-353 | a code produced by any era up to 2018 passes through the 2019-2022 band unchanged |
| Translators.GradeElementaryFallback | lfs_harmonizer_complete_v8.py:325 | in 2012-2016, an unlisted code between 210 and 260 becomes 10012 instead of missing |
| Translators.Bounds | lfs_harmonizer_complete_v8.py:356-392 | each range-check translator keeps a non-empty interval of codes |
| Translators.WynotCode | lfs_harmonizer_complete_v8.py:371-377 | codes are kept from 2021; before that, old code 6 becomes 61, codes 0-5 and 7-9 are kept, and any other code is missing |
| Translators.Recode | lfs_harmonizer_complete_v8.py:356-392 | a range-check translator keeps a code exactly when it lies in the translator's interval, and then leaves it unchanged |
| Translators.Translate | lfs_harmonizer_complete_v8.py:394-402 | a translator gives missing when coercion fails, and otherwise recodes the coerced code |
| Translators.RangeIdempotent | lfs_harmonizer_complete_v8.py:356-392 | translating a range-check translator's output again changes nothing |
| Translators.BandedIdempotent | lfs_harmonizer_complete_v8.py:301-377 | the banded translators are idempotent in their identity eras, and the grade translator also in 2019-2022 for non-zero results; before 2021 the wynot recoding is not (6 gives 61, and 61 gives missing) |
| Translators.MissingTokensStayMissing | lfs_harmonizer_complete_v8.py:201 | every translator sends every missing-value spelling to missing |
| SummaryRecoders.OccMajor | lfs_harmonizer_complete.py:314-320 | before 2012 exactly the table's codes are accepted, each giving a major group 0-9; from 2012 every code gives a value, which is a digit 0-9 for codes below 10000 |
| SummaryRecoders.OccLeadingDigit | lfs_harmonizer_complete.py:320 | from 2012 a code of two to four digits is summarised by its leading digit |
| SummaryRecoders.OldIndustrySection | lfs_harmonizer_complete.py:325-327 | the pre-2012 table accepts only codes 1-99 and gives sections 1-16 |
| SummaryRecoders.DivisionSection | lfs_harmonizer_complete.py:328-350 | the 2012 table accepts only divisions 1-99 and gives sections 1-21 |
| SummaryRecoders.IndSection | lfs_harmonizer_complete.py:322-350 | industry sections are 1-16 before 2012 and 1-21 from 2012 |
| SummaryRecoders.IndThroughDivision | lfs_harmonizer_complete.py:328 | from 2012 a code of three or more digits is summarised through its division, code // 100 |
| SummaryRecoders.IndUnlistedDivisions | lfs_harmonizer_complete.py:329-350 | divisions that the 2012 classification does not list (4, 34, 40, ...) give missing |
| SummaryRecoders.EduNewestLevel | lfs_harmonizer_complete.py:379-388 | the newest band's specific codes give levels 0-9 |
| SummaryRecoders.EduOldLevel | lfs_harmonizer_complete.py:355-376 | the bands up to 2011 and 2012-2016 give levels 0-9 |
| SummaryRecoders.EduLevelAsWritten | lfs_harmonizer_complete.py:352-388 | as written, levels are 0-9 and from 2017 every code in 0..1000 gives level 0 |
| SummaryRecoders.EduLevel | lfs_harmonizer_complete.py:377-388 | corrected, in 2017-2018 every code in 0..1000 gets a level; larger codes, and every other year, are summarised as written |
| SummaryRecoders.EduAsWrittenLosesLegacyCodes | lfs_harmonizer_complete.py:378 | as written, raw 2017 grade 110 gives level 0, although its translated code 10011 gives level 2 |
| SummaryRecoders.EduAgreesWithGrade | lfs_harmonizer_complete.py:377-388 | corrected, summarising a raw 2017-2018 grade code agrees with summarising its translated code |
| SummaryRecoders.MstatGroup | lfs_harmonizer_complete.py:390-396 | groups are 1-6, and each era accepts exactly its own codes (1-5, 1-6, 1-6, 1-8) |
| SummaryRecoders.MstatGroupAgreesWithTranslation | lfs_harmonizer_complete.py:393-396 | grouping an older era's raw code agrees with grouping its harmonized code in the 2024 table |
| SummaryRecoders.Recode | lfs_harmonizer_complete.py:314-396 | a recoder gives missing when coercion fails; apart from the occupation digit, results lie in 0..21; the education summary is the one as written |
| HarmonizerConfig.TablesWithinSchema | lfs_harmonizer_complete.py:515-520 | every translated field and every derived field with its original is a field of both output schemas |
| HarmonizerV8.YearLoopAsWritten | lfs_harmonizer_complete_v8.py:477-484 | as written, a year already found stays found; a changed year is the mode of some present fallback column |
| HarmonizerV8.FirstYearMode | lfs_harmonizer_complete_v8.py:477-484 | the corrected fallback is a non-zero mode of a present fallback column, and it is missing exactly when every present column's mode is missing or zero |
| HarmonizerV8.CorrectedYear | lfs_harmonizer_complete_v8.py:476-487 | corrected, the year is the file name's year when there is one; otherwise it is never 0, and it is 2020 unless it is the mode of a present fallback column |
| HarmonizerV8.InferYear | lfs_harmonizer_complete_v8.py:476-487 | the fallback loop computes the year as written: the name's year when there is one, otherwise the loop that stops at the first non-zero mode, with 2020 only when no mode was found; when no fallback mode is 0 it equals the corrected year |
| HarmonizerV8.ZeroModeYearAsWritten | lfs_harmonizer_complete_v8.py:483-487 | as written, a release without a year in its name whose SVYYR mode is 0 is processed as year 0, not 2020 |
| HarmonizerV8.YearLoopAgrees | lfs_harmonizer_complete_v8.py:477-484 | when no consulted mode is 0, the loop as written and the corrected one agree |
| HarmonizerV8.InferYearAgrees | lfs_harmonizer_complete_v8.py:476-487 | when no fallback mode is 0, the year as written and the corrected year agree |
| HarmonizerV8.TranslateColumn | lfs_harmonizer_complete_v8.py:507 | the translated column has one translated cleaned value per row |
| HarmonizerV8.TranslateNoGain | lfs_harmonizer_complete_v8.py:507-510 | a translator never turns a missing cleaned value into a present one |
| HarmonizerV8.KindOf | lfs_harmonizer_complete_v8.py:506 | a field has a translator exactly when the translation map lists it, and then it is the listed one |
| HarmonizerV8.FieldValues | lfs_harmonizer_complete_v8.py:503-515 | a mapped field's values keep the table's row count |
| HarmonizerV8.MappedReportCounts | lfs_harmonizer_complete_v8.py:502-520 | a mapped field has at least one raw value; counts only shrink from raw to cleaned to final; translation loss is the number of cleaned values the translator dropped; nulls and final values add up to the rows |
| HarmonizerV8.MappedReportShares | lfs_harmonizer_complete_v8.py:521-522 | a mapped field's retention lies in 0..100 and adds up to 100 with its null share |
| HarmonizerV8.MappedFieldCounts | lfs_harmonizer_complete_v8.py:499-534 | a field whose resolver succeeds is reported as mapped from the resolved source, translated exactly when listed, and its counts satisfy the identities |
| HarmonizerV8.UnmappedFieldCounts | lfs_harmonizer_complete_v8.py:535-549 | an unmapped field reports no value, every row null and the variants it searched |
| HarmonizerV8.LockedCounts | lfs_harmonizer_complete_v8.py:551-555 | only the year field, and the month field when a month was found, are overwritten, and those then have a value on every row |
| HarmonizerV8.Select | lfs_harmonizer_complete_v8.py:558-560 | a field is listed under a tally exactly when it is a schema field whose report falls under that tally |
| HarmonizerV8.SelectPartition | lfs_harmonizer_complete_v8.py:558-559 | the mapped and unmapped fields together number the schema's fields |
| HarmonizerV8.TranslatedAreMapped | lfs_harmonizer_complete_v8.py:558-560 | there are no more translated fields than mapped ones |
| HarmonizerV8.NonNullBound | lfs_harmonizer_complete_v8.py:562-563 | the non-null cells are at most the rows times the fields |
| HarmonizerV8.SummaryTotals | lfs_harmonizer_complete_v8.py:558-564 | each field is counted once as mapped or unmapped, translated fields are among the mapped ones, and the mapped share and overall retention lie in 0..100 |
| HarmonizerV8.FieldReportsSound | lfs_harmonizer_complete_v8.py:498-549 | a field's final count never exceeds the rows, and only mapped fields are translated |
| HarmonizerV8.MapField | lfs_harmonizer_complete_v8.py:499-549 | one field of the loop yields its output column and its report |
| HarmonizerV8.MapFields | lfs_harmonizer_complete_v8.py:498-549 | every schema field, in order, gets its output column, and a report exactly for the schema fields |
| HarmonizerV8.LockYearMonth | lfs_harmonizer_complete_v8.py:551-555 | every field's column after the lock is its locked column |
| HarmonizerV8.ProcessFile | lfs_harmonizer_complete_v8.py:452-661 | year and month come from the name with the fallback as written (a zero mode included); each field is mapped in schema order and the year and month are then locked; the report covers exactly the schema, and its counts and retention are consistent |
| Coverage.SourceIn | lfs_harmonizer_complete_v8.py:254-255 | a source is counted only when it is named and non-empty |
| Coverage.UnmappedFiles | lfs_harmonizer_complete_v8.py:248-251 | a file is listed exactly when its report leaves the field unmapped |
| Coverage.Retentions | lfs_harmonizer_complete_v8.py:252-253 | every non-unmapped report contributes one retention value, which comes from such a report |
| Coverage.Sources | lfs_harmonizer_complete_v8.py:254-256 | the source tally counts at most one source per mapped file and never the empty name |
| Coverage.Min | lfs_harmonizer_complete_v8.py:263 | the minimum is a listed value that no listed value undercuts |
| Coverage.Max | lfs_harmonizer_complete_v8.py:264 | the maximum is a listed value that no listed value exceeds |
| Coverage.AverageBetween | lfs_harmonizer_complete_v8.py:262-264 | the average of a non-empty list lies between its minimum and its maximum |
| Coverage.SummaryTotals | lfs_harmonizer_complete_v8.py:257-267 | mapped plus unmapped files make the total; the retention figures exist exactly when some file mapped the field, and then min <= avg <= max; the source tally counts at most the mapped files |
| Coverage.SummaryRetentionRange | lfs_harmonizer_complete_v8.py:262-264 | when every mapped file's retention lies in 0..100, so do the summary's figures |
| Coverage.SummarizeColumn | lfs_harmonizer_complete_v8.py:245-267 | the collecting loop for one field yields the field's summary |
| Coverage.BuildColumnSummary | lfs_harmonizer_complete_v8.py:240-268 | the summary has exactly one entry per schema field, and each entry is that field's summary |
| Coverage.CellOf | lfs_harmonizer_complete_v8.py:286-287 | a matrix cell reads UNMAPPED exactly when the report leaves the field unmapped, and otherwise holds the field's retention |
| Coverage.MatrixRow | lfs_harmonizer_complete_v8.py:285-287 | a release's row has one cell per schema field, in order |
| Coverage.MatrixColumn | lfs_harmonizer_complete_v8.py:274-288 | a field's column has one cell per release, in order |
| Coverage.MatrixColumnAgrees | lfs_harmonizer_complete_v8.py:250-251 | the UNMAPPED cells of a field's column are as many as the field summary's unmapped files |
| Coverage.MatrixRowAgrees | lfs_harmonizer_complete_v8.py:559 | the UNMAPPED cells of a release's row are as many as its report's unmapped fields |
| HarmonizerV7.MapFieldsV7 | lfs_harmonizer_complete.py:493-505 | a field is produced exactly when it is a schema field with a column from the loop, and then it holds that column |
| HarmonizerV7.FieldColumnV7Mapped | lfs_harmonizer_complete.py:494-503 | a field gets a column exactly when it is not derived and its resolver succeeds, and the column is read from the resolved source |
| HarmonizerV7.MapFieldV7 | lfs_harmonizer_complete.py:494-505 | one field of the earlier loop yields its column or nothing |
| HarmonizerV7.LockV7 | lfs_harmonizer_complete.py:510-513 | produced columns are kept; the year field is filled only when it was not produced, and the month field only when it was not produced and a non-zero month was found |
| HarmonizerV7.RecodeColumn | lfs_harmonizer_complete.py:524 | the recoded column has one recoded cleaned value per row |
| HarmonizerV7.DerivedColumnOf | lfs_harmonizer_complete.py:521-524 | one derived entry yields its derived column or nothing |
| HarmonizerV7.DerivedColumns | lfs_harmonizer_complete.py:515-524 | every derived entry has its own derived column, in order |
| HarmonizerV7.Names | lfs_harmonizer_complete.py:515-520 | the derived names are listed in entry order |
| HarmonizerV7.SetColumns | lfs_harmonizer_complete.py:524 | setting derived columns keeps every existing field, and leaves unchanged the fields no entry names |
| HarmonizerV7.SetColumnsLastWins | lfs_harmonizer_complete.py:515-524 | the last entry for a name that has a column decides that name's column |
| HarmonizerV7.SetColumnsStep | lfs_harmonizer_complete.py:521-524 | one more entry sets its column when it has one and changes nothing otherwise |
| HarmonizerV7.Ordered | lfs_harmonizer_complete.py:526-527 | the output holds exactly the schema fields that were produced, with their columns |
| HarmonizerV7.DerivedFromOriginal | lfs_harmonizer_complete.py:521-524 | a derived field whose original resolves recodes the original's cleaned cells, not its translated output |
| HarmonizerV7.DerivedNamesDistinct | lfs_harmonizer_complete.py:515-520 | the four derived names differ from each other |
| HarmonizerV7.DerivedColumnCells | lfs_harmonizer_complete.py:521-524 | the derived column recodes each cleaned cell of the resolved original |
| HarmonizerV7.YearKeptWhenMapped | lfs_harmonizer_complete.py:510-511 | when the release has a usable year column, the year field keeps the source's values and the inferred year is not forced onto it |
| HarmonizerV7.MapSchemaV7 | lfs_harmonizer_complete.py:493-505 | the earlier mapping loop produces the mapped fields |
| HarmonizerV7.AddDerivedLoop | lfs_harmonizer_complete.py:515-524 | the derived-field loop sets every derived field whose original resolves |
| HarmonizerV7.SelectSchema | lfs_harmonizer_complete.py:526-527 | the final columns are the produced schema fields, in schema order |
| HarmonizerV7.ProcessFileV7 | lfs_harmonizer_complete.py:459-530 | the earlier generation maps, locks and derives in that order under the year inferred as written, and outputs only schema fields |
| ValidationReport.CountValues | lfs_validation_report.py:128-129 | the number of usable cells is at most the non-null count |
| ValidationReport.CountRenderedNonBlank | lfs_validation_report.py:129 | the count of cells whose string form is non-blank is at most the rows |
| ValidationReport.NonEmptyAsWritten | lfs_validation_report.py:128-129 | the report's non-empty count is at most the sample's rows, and for a numeric column it is the non-null count |
| ValidationReport.AsWrittenCountsMore | lfs_validation_report.py:128-137 | the count as written is never below the usable cells, so every source it flags as a placeholder also holds fewer than ten usable cells |
| ValidationReport.NonEmpty | lfs_validation_report.py:128-129 | the corrected non-empty count is at most the non-null count, is zero exactly when the column has no usable value, and equals the non-null count for a numeric column |
| ValidationReport.CountValuesZero | lfs_validation_report.py:128-129 | there are no usable cells exactly when no cell holds a usable value |
| ValidationReport.CountValuesNumeric | lfs_validation_report.py:129 | a numeric column's usable count is its non-null count |
| ValidationReport.CountValuesMissing | lfs_validation_report.py:129 | an all-missing column has no usable value, yet every one of its cells renders as non-blank text |
| ValidationReport.MissingCountedAsFilled | lfs_validation_report.py:129 | as written, a text column with one value and nine missing cells counts ten filled cells and is not a placeholder, although it holds one value |
| ValidationReport.CountValuesAppend | lfs_validation_report.py:129 | both counts add up over stacked rows |
| ValidationReport.SourceAt | lfs_validation_report.py:128-138 | a found source records its name and the sample size, is a placeholder exactly when the count as written (missing text cells included) is below ten, and has no filled share for an empty sample |
| ValidationReport.FoundSources | lfs_validation_report.py:121-138 | at most one source is found per variant |
| ValidationReport.NoneFound | lfs_validation_report.py:122-123 | nothing is found exactly when no variant is present |
| ValidationReport.FirstFoundIsFirstPresent | lfs_validation_report.py:122-142 | the first found source is the first variant present in the sample, however empty it is |
| ValidationReport.MappingOf | lfs_validation_report.py:140-144 | a target's mapping records its found sources |
| ValidationReport.Classify | lfs_validation_report.py:147-160 | a target raises at most one issue, and it is MISSING, PLACEHOLDER or DATA_QUALITY |
| ValidationReport.ClassifyMissing | lfs_validation_report.py:147-148 | MISSING is raised exactly when no variant of the target is present |
| ValidationReport.FirstTwoFound | lfs_validation_report.py:121-138 | the first two found sources are those of the first two present variants |
| ValidationReport.OnlyOneFound | lfs_validation_report.py:121-138 | with one present variant exactly one source is found |
| ValidationReport.ClassifySingle | lfs_validation_report.py:149 | a target with a single present variant raises no issue |
| ValidationReport.ClassifyFirstTwo | lfs_validation_report.py:149-160 | with two or more present variants, PLACEHOLDER is raised exactly when the first is a placeholder and the second is not; otherwise DATA_QUALITY is raised exactly when the first's filled share is more than 20 points below the second's |
| ValidationReport.EmptySampleOnlyMissing | lfs_validation_report.py:136-160 | an empty sample can only raise MISSING |
| ValidationReport.EmptySampleAllPlaceholders | lfs_validation_report.py:136-137 | in an empty sample every found source is a placeholder with no filled share |
| ValidationReport.KindName | lfs_validation_report.py:148-177 | an issue label contains no colon |
| ValidationReport.IssueTypeOfText | lfs_validation_report.py:235 | splitting an issue line at its first colon gives back the issue's label, whatever its detail says |
| ValidationReport.Uppers | lfs_validation_report.py:165 | the upper-cased variants are exactly the variants of the list, upper-cased |
| ValidationReport.AllVariantsMember | lfs_validation_report.py:163-165 | a name is mapped exactly when some variant of some target upper-cases to it |
| ValidationReport.Unmapped | lfs_validation_report.py:167 | a column is unmapped exactly when it is a column whose upper-cased name is not mapped |
| ValidationReport.Important | lfs_validation_report.py:168-169 | a column is important exactly when it is given and its upper-cased name contains a keyword |
| ValidationReport.Headers | lfs_validation_report.py:115 | the headers are the table's column names, in order |
| ValidationReport.TargetIssues | lfs_validation_report.py:120-160 | the targets raise at most one issue each |
| ValidationReport.TargetMappings | lfs_validation_report.py:140 | every target gets a mapping, and nothing else does |
| ValidationReport.TargetMappingsAt | lfs_validation_report.py:140-144 | with distinct targets, each target's mapping is built from its own variants |
| ValidationReport.Shown | lfs_validation_report.py:172 | at most the first ten important columns are shown, and all of them when there are no more |
| ValidationReport.ReadFailure | lfs_validation_report.py:176-177 | an unreadable release has the single READ_ERROR issue and no mapping, and keeps the year and month of its name |
| ValidationReport.WillUseFirstPresent | lfs_validation_report.py:140-142 | in a readable release every target has a mapping, and it will use the first variant present in the sample |
| ValidationReport.NoSourceWhenAbsent | lfs_validation_report.py:142 | a target none of whose variants is present has no source to use and no found source |
| ValidationReport.UnmappedExact | lfs_validation_report.py:163-174 | the unmapped columns are exactly the headers that match no variant of any target once upper-cased, and the important ones are among them |
| ValidationReport.FindSources | lfs_validation_report.py:121-138 | the variant loop finds the target's sources |
| ValidationReport.MapTargets | lfs_validation_report.py:120-160 | the target loop records every mapping and appends every issue |
| ValidationReport.UnmappedColumns | lfs_validation_report.py:167 | the header loop lists the unmapped columns |
| ValidationReport.AnalyzeFile | lfs_validation_report.py:94-179 | the analysis of a release is discovery, classification on the counts as written and the unmapped check, or the read error |
| ValidationReport.TallyTarget | lfs_validation_report.py:252-265 | the release loop tallies the sources used, the missing releases and the placeholders of a target |
| ValidationReport.TallyTotal | lfs_validation_report.py:256-261 | for every target, the releases using some source plus the missing releases make all releases |
| ValidationReport.PlaceholdersAreUsed | lfs_validation_report.py:263-265 | a release counted as a placeholder also counts a used source |
| ValidationReport.Lines | lfs_validation_report.py:148-177 | each issue is stored as its label, a colon and its detail |
| ValidationReport.OccurrencesHaveType | lfs_validation_report.py:232-236 | every line grouped under a type has that type, and comes from an analysed release |
| ValidationReport.LineListed | lfs_validation_report.py:232-236 | every issue line of every release is grouped under its own type |
| ValidationReport.IssueListedUnderKind | lfs_validation_report.py:232-236 | every issue of every release is grouped under its own label |
| ValidationReport.Append | lfs_validation_report.py:236 | appending to a group extends that group only |
| ValidationReport.GroupFileIssues | lfs_validation_report.py:234-236 | one release's lines are appended, each under its type, and no group is empty |
| ValidationReport.GroupIssues | lfs_validation_report.py:232-236 | the grouping loop lists every issue line under its type, in release and issue order, and no group is empty |
| ValidationReport.MissingCriticalByTarget | lfs_validation_report.py:289-294 | the count of release and critical-target pairs without a source is the sum of those targets' missing counts |
| ValidationReport.FilesWithIssues | lfs_validation_report.py:221 | at most every release has issues |
| ValidationReport.YearIssues | lfs_validation_report.py:301 | at most every release lacks a year |
| ValidationReport.UnreadableHaveIssues | lfs_validation_report.py:221 | every unreadable release counts among the releases with issues |
| DictionaryExtractor.EntryAccepted | lfs_dictionary_extractor.py:46-70 | a row yields a variable exactly when its name cell is present and, stripped, passes every filter; the variable has the stripped name, and an empty description when the description cell is missing |
| DictionaryExtractor.DictionaryEntries | lfs_dictionary_extractor.py:46-70 | a sheet yields at most one variable per row |
| DictionaryExtractor.ParseDictionarySheet | lfs_dictionary_extractor.py:41-72 | the row loop yields the sheet's variables |
| DictionaryExtractor.AddEntry | lfs_dictionary_extractor.py:67-70 | after each row the list holds the variables of the rows read so far, in order |
| DictionaryExtractor.EntriesAppend | lfs_dictionary_extractor.py:46 | rows are read independently and in order: the entries of stacked sheets are stacked |
| DictionaryExtractor.EntriesExact | lfs_dictionary_extractor.py:46-70 | a variable is listed exactly when some row yields it |
| DictionaryExtractor.Without | lfs_dictionary_extractor.py:100 | removing a character leaves no occurrence of it and never lengthens the text |
| DictionaryExtractor.IntegerTextCode | lfs_dictionary_extractor.py:100 | an integer written out as text reads back as that integer's code |
| DictionaryExtractor.WithoutDigits | lfs_dictionary_extractor.py:100 | the text of an integer counts as numeric once '.' and '-' are removed |
| DictionaryExtractor.DecimalCodesTruncate | lfs_dictionary_extractor.py:100 | a decimal code is truncated toward zero: "12.7" reads as 12 and "-3.9" as -3 |
| DictionaryExtractor.HeaderName | lfs_dictionary_extractor.py:84-90 | a header's variable name is a prefix of its first cell's text |
| DictionaryExtractor.ValueEntryOf | lfs_dictionary_extractor.py:95-104 | a value entry needs a label and a code, and its label is the stripped label cell |
| DictionaryExtractor.Flush | lfs_dictionary_extractor.py:86-87 | storing the current block never introduces an empty value set |
| DictionaryExtractor.ParseValuesetSheet | lfs_dictionary_extractor.py:74-112 | the row-by-row state machine yields the sheet's value sets |
| DictionaryExtractor.ScanNoEmptySets | lfs_dictionary_extractor.py:86-87 | the scan never stores an empty value set |
| DictionaryExtractor.ValuesetsNonEmpty | lfs_dictionary_extractor.py:108-110 | a variable is recorded only with at least one value |
| DictionaryExtractor.ScanAppend | lfs_dictionary_extractor.py:80 | scanning two stacked pieces is scanning one after the other |
| DictionaryExtractor.ScanValueRows | lfs_dictionary_extractor.py:94-104 | rows without a header only extend the current values |
| DictionaryExtractor.NoHeaderNoValuesets | lfs_dictionary_extractor.py:86-87 | values before the first header belong to no variable |
| DictionaryExtractor.LastBlockWins | lfs_dictionary_extractor.py:84-110 | the last header for a variable, followed by value rows only, decides exactly that variable's values |
| DictionaryExtractor.AnalyzeDictionaryFile | lfs_dictionary_extractor.py:114-143 | a workbook keeps the year and month of its name; it has an error exactly when opening it or reading one of its first two sheets fails, and the error is the first failure's message; the variables come from the first sheet when it was read, the value sets from the second when both were read, and what was parsed before a failure is kept |
| DictionaryExtractor.AddYearMember | lfs_dictionary_extractor.py:197-199 | adding a file's names adds its year to exactly those names |
| DictionaryExtractor.AddVarsMember | lfs_dictionary_extractor.py:197-200 | adding a file's names adds exactly those names under its year |
| DictionaryExtractor.UpperNames | lfs_dictionary_extractor.py:198 | the indexed names are the variables' names, upper-cased, in order |
| DictionaryExtractor.Accumulate | lfs_dictionary_extractor.py:180-205 | the accumulation loop builds both indexes |
| DictionaryExtractor.IndexesAgree | lfs_dictionary_extractor.py:199-200 | a variable lists a year exactly when that year lists the variable |
| DictionaryExtractor.YearsStep | lfs_dictionary_extractor.py:186-200 | one more file adds its year to exactly the names it lists, when it is counted (a year, and no error or an empty error message) |
| DictionaryExtractor.YearsListed | lfs_dictionary_extractor.py:186-200 | a variable is indexed under a year exactly when a counted file of that year lists it |
| DictionaryExtractor.GroupByPrefix | lfs_dictionary_extractor.py:280-297 | the grouping loop builds the prefix groups |
| DictionaryExtractor.BucketsExact | lfs_dictionary_extractor.py:280-297 | each group holds exactly the variables of its prefix, in order |
| DictionaryExtractor.Filter | lfs_dictionary_extractor.py:280-297 | a variable is in its prefix's list exactly when it is given and has that prefix |
| DictionaryExtractor.BucketsMembers | lfs_dictionary_extractor.py:280-297 | a variable is in a group exactly when it is given and the group is its prefix's |
| DictionaryExtractor.BucketsPartition | lfs_dictionary_extractor.py:280-297 | each variable lands in exactly one group, so the group sizes add up to the variables |
| DictionaryExtractor.OnlyInEraExact | lfs_dictionary_extractor.py:338-347 | a variable is era-only exactly when it appears in some year and every year it appears in lies in the era |
| VariableInventory.AddVariantsAt | variable_inventory.py:139-140 | one target's variants map exactly their upper-cased forms to it, and every other key is left alone |
| VariableInventory.ReverseMapKeys | variable_inventory.py:135-141 | the keys are exactly the upper-cased variants of the table |
| VariableInventory.ReverseMapLastWins | variable_inventory.py:138-140 | a variant maps to the last target, in table order, whose list holds it |
| VariableInventory.BuildReverseMap | variable_inventory.py:135-141 | the nested loop builds the reverse map |
| VariableInventory.Bounds | variable_inventory.py:234-235 | the first and last years are the least and greatest of the set |
| VariableInventory.MissingYears | variable_inventory.py:154-155 | the missing years are exactly the absent years of the range, ascending |
| VariableInventory.Runs | variable_inventory.py:161-171 | there are runs exactly when there are missing years |
| VariableInventory.RunsSeparated | variable_inventory.py:161-171 | runs are non-empty, ascending and separated by a present year, and the last ends at the last missing year |
| VariableInventory.RunsCover | variable_inventory.py:161-171 | a year lies in some run exactly when it is missing: the runs lose and add no year |
| VariableInventory.GroupRuns | variable_inventory.py:161-171 | the grouping loop builds the runs |
| VariableInventory.RunTexts | variable_inventory.py:173-176 | each run is rendered on its own, in order |
| VariableInventory.FewYearsNoGap | variable_inventory.py:147-151 | fewer than two years leave no room for a gap |
| VariableInventory.DetectGaps | variable_inventory.py:144-177 | there is a gap exactly when some year strictly between two listed years is absent; the details are empty without a gap and otherwise describe the runs of absent years between the first and last year |
| VariableInventory.GapRunsExact | variable_inventory.py:153-171 | the described runs are separated and cover exactly the absent years between the first and last year |
| VariableInventory.DedupDistinct | variable_inventory.py:197-203 | every kept name is a given name, and no two kept names agree once lower-cased |
| VariableInventory.DedupCovers | variable_inventory.py:199-203 | every given name has a kept name with the same lower-cased form |
| VariableInventory.DedupKeepsFirst | variable_inventory.py:199-203 | the first name of each lower-cased form is the one kept |
| VariableInventory.DiscoverFiles | variable_inventory.py:197-203 | the loop with its set of lower-cased names keeps the de-duplicated files |
| VariableInventory.ScanFiles | variable_inventory.py:211-221 | the scanning loop builds the inventory |
| VariableInventory.AddHeadersAt | variable_inventory.py:218-221 | one file's distinct headers append its name, and its year when detected, to exactly the listed variables |
| VariableInventory.InventoryExact | variable_inventory.py:211-221 | a variable's files are, in scan order, those whose headers list it; its years are those files' detected years; and it is inventoried exactly when some file lists it |
| VariableInventory.BuildRow | variable_inventory.py:229-253 | a row counts the variable's files, gives its first and last years when it has any, renders the year range as first-last exactly when both are present and non-zero (empty otherwise), reports gaps as detect_gaps does, and maps the upper-cased name to its target |
| ValuesetParser.SplitIntoBlocks | valueset_parser.py:31-46 | the row loop builds the blocks |
| ValuesetParser.SplitWellFormed | valueset_parser.py:35-41 | closed blocks are never empty and hold no blank row, and neither does the current one |
| ValuesetParser.SplitKeeps | valueset_parser.py:35-41 | the closed blocks followed by the current one are the non-blank rows read so far |
| ValuesetParser.BlocksExact | valueset_parser.py:35-46 | blocks are never empty and hold no blank row, and read one after another they give back the sheet's non-blank rows in order |
| ValuesetParser.SplitAppend | valueset_parser.py:35 | reading two stretches of rows is reading the first, then the second from where the first left off |
| ValuesetParser.BlankSeparates | valueset_parser.py:36-39 | a blank row closes the block: the blocks on each side of it are read independently |
| ValuesetParser.Numbers | valueset_parser.py:58-60 | a row yields at most one number per cell |
| ValuesetParser.LabelIsFirstText | valueset_parser.py:61-62 | the label is the first text cell, stripped and upper-cased, and a row without text has none |
| ValuesetParser.ReadRow | valueset_parser.py:54-62 | the cell loop collects the numbers and the label |
| ValuesetParser.AssignAt | valueset_parser.py:74-75 | a range assignment labels exactly the codes in it and leaves the others as they were |
| ValuesetParser.RowEffect | valueset_parser.py:64-77 | a row without a number or label changes nothing; otherwise its range is relabelled, the other codes keep their labels, and its end becomes prev_end |
| ValuesetParser.RangeRule | valueset_parser.py:67-72 | two numbers give [n0, n1]; a lone number gives prev_end + 1 .. n after an accepted row and n alone before one |
| ValuesetParser.ConfidenceHigh | valueset_parser.py:79 | confidence is HIGH exactly when the block labels two different codes |
| ValuesetParser.ExtractValueset | valueset_parser.py:49-80 | the row loop builds the block's code map and its confidence |
| ValuesetParser.ReadValueRow | valueset_parser.py:64-77 | one row's range loop has the row's effect |
| ValuesetParser.ParseDictionaryValuesets | valueset_parser.py:14-28 | the merge loop yields the merged value sets of the sheet |
| ValuesetParser.MergeBlock | valueset_parser.py:22-26 | after each block the merged map is the merge of the trusted blocks read so far |
| ValuesetParser.MergeAllKeys | valueset_parser.py:26 | a code is merged exactly when some merged map has it |
| ValuesetParser.MergeAllLastWins | valueset_parser.py:26 | a code takes its label from the last map that has it |
| ValuesetParser.TrustedMaps | valueset_parser.py:23-26 | the merged maps are exactly the HIGH-confidence blocks' maps |
| BuildVariableInventory.RecordAccepted | build_variable_inventory.py:71-88 | a row yields a record exactly when its name cell is not skipped; the record has the file, release, year and month, the stripped name, and the stripped label or '' |
| BuildVariableInventory.VariablesExact | build_variable_inventory.py:64-90 | a record comes from a workbook exactly when it is readable, wider than the name column, and one of its rows yields the record |
| BuildVariableInventory.ReadVariables | build_variable_inventory.py:50-90 | the row loop yields the workbook's records |
| BuildVariableInventory.CollectRecords | build_variable_inventory.py:115-123 | the main loop gathers every workbook's records and the names of those that yielded none |
| BuildVariableInventory.FilesAccounted | build_variable_inventory.py:185-186 | successful plus failed workbooks make all workbooks |
| BuildVariableInventory.AllRecordsExact | build_variable_inventory.py:115-120 | a record is collected exactly when some workbook yields it |
| BuildVariableInventory.FailedExact | build_variable_inventory.py:121-122 | a name is reported as failed exactly when a workbook of that name yields no record |
| BuildVariableInventory.ReleasesExact | build_variable_inventory.py:137 | the releases listed are exactly those of some record, each once |
| BuildVariableInventory.VariableNamesExact | build_variable_inventory.py:138 | the variables listed are exactly those of some record, each once |
| BuildVariableInventory.ReleaseVarsExact | build_variable_inventory.py:139-142 | a release's variable set holds exactly the variables some record puts in it |
| BuildVariableInventory.PresenceMatrix | build_variable_inventory.py:139-149 | the matrix has a row per variable and a column per release, with YES exactly where a record puts the variable in the release, and NO elsewhere |
| BuildVariableInventory.MatchingExact | build_variable_inventory.py:158 | a variable's records are exactly the records of that name |
| BuildVariableInventory.PresentInExact | build_variable_inventory.py:159 | the releases of a variable's records are exactly the releases it is present in, each once |
| BuildVariableInventory.PresentMissingCount | build_variable_inventory.py:159-168 | the releases a variable is present in and those it is missing from make all releases |
| BuildVariableInventory.CoverageBounds | build_variable_inventory.py:169 | coverage is a percentage that is 100 exactly when every release is covered and 0 exactly when none is |
| BuildVariableInventory.Summarize | build_variable_inventory.py:157-174 | the summary lists present and missing releases exactly, counts them so that they add up to all releases, gives a coverage of 100 exactly when nothing is missing, takes the first label, and gives the least and greatest year |
| CrossReference.LookupExact | crossref_column_priority.py:30-37 | the lookup gives each release exactly its upper-cased and stripped variables |
| CrossReference.UpperVariantsAt | crossref_column_priority.py:63 | the searched variants are the priority variants upper-cased, in order |
| CrossReference.MatchedFirst | crossref_column_priority.py:69-71 | the matched variant is the first listed one among the release's variables, and there is none when none is listed |
| CrossReference.MatchedVariant | crossref_column_priority.py:63-71 | a release matches the first priority variant, upper-cased, that it lists, and nothing exactly when it lists none |
| CrossReference.CoverPartition | crossref_column_priority.py:69-76 | each release is covered or uncovered and not both, so the counts add up to the releases |
| CrossReference.UsedExact | crossref_column_priority.py:72-74 | exactly the covered releases record a variant, and it is the one they matched |
| CrossReference.MatchedVariantsExact | crossref_column_priority.py:81 | a variant is listed as matched exactly when some covered release matched it |
| CrossReference.CoverageCounts | crossref_column_priority.py:78-93 | a coverage row accounts for every release once; its percentage lies in 0..100, and is 100 exactly when nothing is uncovered and 0 exactly when nothing is covered |
| CrossReference.AnalyzeTarget | crossref_column_priority.py:62-93 | the per-release loop builds the target's coverage row |
| CrossReference.UncoveredDetail | crossref_column_priority.py:96-103 | each uncovered release yields one detail row with the variants searched and the release's variables |
| CrossReference.CrossReferenceAll | crossref_column_priority.py:29-103 | every schema target, in order, gets its coverage row over the inventory's releases |
| CrossReference.LevelsPartition | crossref_column_priority.py:127-130 | a target is fully covered, fully uncovered or partial exactly by its counts |
| Crosswalk.SourceOf | harmonize.py:60-85 | a chosen column is always a column of the raw table |
| Crosswalk.SourceExact | harmonize.py:60-85 | the master's own column wins when present; otherwise the first present candidate wins, with every earlier one absent, and the value is missing exactly when none is present |
| Crosswalk.EmpstatIgnoresBlock | harmonize.py:67-74 | the employment-status master ignores the variables its block lists and takes its own column or one of its precedence columns, whatever the block lists |
| Crosswalk.HarmonizedKeys | harmonize.py:53-85 | the output has exactly the masters the crosswalk names |
| Crosswalk.LastBlockWins | harmonize.py:53-85 | a master takes the source chosen by the last block of its name |
| Crosswalk.FirstPresentLoop | harmonize.py:79-83 | the loop that stops at the first match yields the first present candidate |
| Crosswalk.OutputTable | harmonize.py:90 | the output table is refused exactly when there is at least one master and none has a column; otherwise it holds the harmonized entries |
| Crosswalk.NoSourceNoTable | harmonize.py:53-90 | a non-empty crosswalk none of whose blocks finds a column yields no table |
| Crosswalk.ResolvedGivesTable | harmonize.py:53-90 | a table is produced when the last block of some master finds a column |
| Crosswalk.Harmonize | harmonize.py:53-90 | the block loop builds the harmonized entries, and the output table is built from them or refused |

## Left out

- File I/O is not modelled: reading CSV and Excel files, the encoding fallbacks, discovering files by glob, and writing CSV, parquet, JSON and text reports. Every operation takes the in-memory table the reader would yield. A workbook, sheet or table that cannot be read is an explicit `None` or failed read, with its error message where the source keeps one.
- Console output and logging are not modelled: `safe_print`, the log lines and badges, the report-line layout, timing, argument parsing, batching and `gc`.
- Floating point is not modelled. Cells hold integers or text, and percentages are exact reals without `round`.
- Cells.Coerce: reads text as a signed run of ASCII digits. The decimal points, exponents and `inf` that `float()` also accepts are not modelled.
- HarmonizerV8.InferYear: the mode of a column is a parameter (`ModeOracle`), not computed, because pandas' mode (ties, NaN) is library behaviour.
- Text.Upper: upper-casing, lower-casing, stripping and digit tests cover ASCII only. Python applies Unicode rules.
- Strip: removes only the ASCII whitespace of str.strip() (tab to carriage return, 0x1C-0x1F and space); the non-ASCII whitespace Python also strips (0x85, 0xA0 and the other Unicode spaces) is kept.
- DictionaryExtractor.TruncatedNumber: `int(float(text))` is modelled for an optional sign, digits and one point. Exponents and float precision on very long digit runs are not.
- Sorting is not modelled. This covers the sorted file lists, the release and variable order, the sorted `present_in` and matched-variant lists, and the final sorts of the summary, matrix and inventory tables. Lists keep the order of first appearance, and the properties are stated as membership and counts.
- BuildVariableInventory.Releases: the releases are in order of first appearance rather than sorted by year and month.
- CrossReference.CrossReferenceAll: the releases are those of the inventory records, in order of first appearance, instead of `sorted()`. The inventory is taken as records in memory. Reading it back from CSV, where pandas may read a variable named "NA" as missing, is not modelled.
- VariableInventory.DiscoverFiles: de-duplicates the names in the order given. Sorting them case-insensitively beforehand is not modelled, and neither is the same rule in lfs_dictionary_extractor.py and build_variable_inventory.py.
- The potential-mappings report of the dictionary extractor is not modelled: it strips a base name by regular expression. The per-variable description sets, `desc_changed`, `var_by_year`, and the first-year, last-year and year-count columns of the dictionary inventory table are not modelled either; they are report columns over the indexes that are modelled.
- The validation report's `column_inventory`, the total row count, and the percentages quoted inside issue texts are not modelled. An issue is modelled as a datatype, and its line as label, colon and detail.
- Crosswalk.Harmonize: identifies a column by its name. The values are copied unchanged. A refused table stands for pandas' ValueError; its message is not modelled.
- VariableInventory.BuildRow: the `years` and `files` text columns are not modelled; they are joins over sorted lists, and sorting is not modelled.
- SummaryRecoders.EduAgreesWithGrade: excludes codes 160 and 240. The two tables place those band ends at different levels.
- checking.py and precedence.py are not part of this model. They hold a column check over output files and a table of precedence rules that the core does not use.
- The source lists each configuration table by hand, and pandas renames repeated headers. The model takes distinct headers where a property needs them.

## Findings

The pipeline members (`ProcessFile`, `ProcessFileV7`, `Recode`, `SourceAt`, `AnalyzeFile`) follow the code as written; each corrected member is defined and proved beside them.

| source | as written | input that shows it | evidently intended | confidence | as-written member | corrected member |
|---|---|---|---|---|---|---|
| lfs_harmonizer_complete_v8.py:476-487 | when the name has no year, the fallback loop keeps a column's mode even when it is 0 and tests only `year is None` before defaulting, so a mode of 0 becomes the release year (the same code is at lfs_harmonizer_complete.py:477-486) | a release named without a year whose SVYYR column is all 0 | a zero mode counts as no year: the next fallback column is tried, then 2020 | not executed | HarmonizerV8.ZeroModeYearAsWritten | HarmonizerV8.CorrectedYear |
| lfs_harmonizer_complete.py:378 | for 2017 and later, the test `0 <= code <= 1000` comes before the specific legacy codes, so every 2017-2018 raw grade code gets level 0 | raw grade 110 in a 2017 release: level 0, while its translated code 10011 gets level 2 | the specific codes are tested first, so a raw code and its translated code get the same level | not executed | SummaryRecoders.EduAsWrittenLosesLegacyCodes | SummaryRecoders.EduAgreesWithGrade |
| lfs_validation_report.py:129 | for a text column, `astype(str)` turns a missing cell into 'nan', so missing cells count as non-empty and a nearly empty column is not flagged as a placeholder | a text column with one value and nine missing cells counts ten filled cells | count the non-null, non-blank cells | not executed | ValidationReport.MissingCountedAsFilled | ValidationReport.NonEmpty |
