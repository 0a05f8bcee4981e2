/**
 * The configuration tables of the two harmonizer generations: the
 * priority list of source-name variants per target field, the output
 * schema, and which translator each translated field uses.
 */
module HarmonizerConfig {
  import opened Text
  import opened Resolver
  import Translators
  import SummaryRecoders

  /** COLUMN_PRIORITY of the current generation. */
  const V8Priority: Priority := map[
    "PUFREG" := ["PUFREG", "CREG", "REG"],
    "PUFSVYYR" := ["PUFSVYYR", "SVYYR", "CYEAR"],
    "PUFSVYMO" := ["PUFSVYMO", "SVYMO", "CMONTH"],
    "PUFHHNUM" := ["PUFHHNUM", "HHNUM"],
    "PUFPSU" := ["PUFPSU", "PSU", "PSU_NO", "STRATUM"],
    "PUFHHSIZE" := ["PUFHHSIZE", "HHID"],
    "PUFRPL" := ["PUFRPL", "CRPM"],
    "PUFPWGTPRV" := ["PUFPWGTPRV", "PUFPWGT", "PUFPWGTFIN", "CFWGT", "FWGT", "PWGT"],
    "PUFC01_LNO" := ["PUFC01_LNO", "C101_LNO", "CC101_LNO", "C04_LNO", "A01_LNO"],
    "PUFC03_REL" := ["PUFC03_REL", "C05_REL", "CC05_REL", "C03_NEWMEM", "CC03_NEWMEM"],
    "PUFC04_SEX" := ["PUFC04_SEX", "C06_SEX", "CC06_SEX"],
    "PUFC05_AGE" := ["PUFC05_AGE", "C07_AGE", "CC07_AGE"],
    "PUFC06_MSTAT" := ["PUFC06_MSTAT", "C08_MSTAT", "C08_MS", "CC08_MSTAT", "CC08_MS"],
    "PUFC07_GRADE" := ["PUFC07_GRADE", "J12C09_GRADE", "C09_GRD", "C09_GRADE", "CC09_GRADE"],
    "PUFC08_CURSCH" := ["PUFC08_CURSCH", "A02_CURSCH", "A02_CSCH"],
    "PUFC09_GRADTECH" := ["PUFC09_GRADTECH", "J12C11_GRADTECH", "J12C11COURSE"],
    "PUFC10_CONWR" := ["PUFC10_CONWR", "PUFC08_CONWR", "C10_CONWR", "C10_CNWR", "CC10_CONWR"],
    "PUFC11_WORK" := ["PUFC11_WORK", "PUFC09_WORK", "C13_WORK", "CC13_WORK", "CC01_WORK", "B01_WORK"],
    "PUFC12_JOB" := ["PUFC12_JOB", "PUFC10_JOB", "C14_JOB", "CC14_JOB", "CC02_JOB", "B02_JOB"],
    "PUFNEWEMPSTAT" := ["PUFNEWEMPSTAT", "NEWEMPSTAT", "CEMPST1", "CEMPST2", "NEWEMPST"],
    "PUFC14_PROCC" := ["PUFC14_PROCC", "PUFC13_PROCC", "C16_PROCC", "C16_PROC", "CC16_PROCC", "C16F2_PROCC", "C16L2_PROCC", "CC12_USOCC", "J01_USOCC", "J01_USOC"],
    "PUFC16_PKB" := ["PUFC16_PKB", "PUFC15_PKB", "C18_PKB", "CC18_PKB", "C18F2_PKB", "C18L2_PKB", "CC06_IND", "J03_OKB"],
    "PUFC17_NATEM" := ["PUFC17_NATEM", "PUFC16_NATEM", "C20_NATEM", "C20_NTEM", "CC20_NATEM"],
    "PUFC18_PNWHRS" := ["PUFC18_PNWHRS", "PUFC17_PNWHRS", "C21_PNWHRS", "C21_PWHR", "CC21_PNWHRS", "CC18_PNWHRS"],
    "PUFC19_PHOURS" := ["PUFC19_PHOURS", "PUFC18_PHOURS", "C22_PHOURS", "C22_PHRS", "CC22_PHOURS"],
    "PUFC20_PWMORE" := ["PUFC20_PWMORE", "PUFC19_PWMORE", "C23_PWMORE", "C23_PWMR", "CC23_PWMORE"],
    "PUFC21_PLADDW" := ["PUFC21_PLADDW", "PUFC20_PLADDW", "C24_PLADDW", "C24_PLAW", "CC24_PLADDW"],
    "PUFC22_PFWRK" := ["PUFC22_PFWRK", "PUFC20B_FTWORK", "C25_PFWRK", "C25_PFWK", "CC25_PFWRK"],
    "PUFC23_PCLASS" := ["PUFC23_PCLASS", "PUFC21_PCLASS", "C19_PCLASS", "C19PCLAS", "CC19_PCLASS"],
    "PUFC24_PBASIS" := ["PUFC24_PBASIS", "C26_PBASIS", "C26_PBIS", "CC26_PBASIS"],
    "PUFC25_PBASIC" := ["PUFC25_PBASIC", "C27_PBASIC", "C27_PBSC", "CC27_PBASIC", "C36_OBASIC", "C36_OBIC"],
    "PUFC26_OJOB" := ["PUFC26_OJOB", "PUFC22_OJOB", "C28_OJOB", "CC28_OJOB"],
    "PUFC27_NJOBS" := ["PUFC27_NJOBS", "A03_JOBS"],
    "PUFC28_THOURS" := ["PUFC28_THOURS", "PUFC23_THOURS", "A04_THOURS", "A04_THRS"],
    "PUFC29_WWM48H" := ["PUFC29_WWM48H", "PUFC24_WWM48H", "A05_RWM48H", "A05_R48H"],
    "PUFC30_LOOKW" := ["PUFC30_LOOKW", "PUFC25_LOOKW", "C38_LOOKW", "C38_LOKW", "CC38_LOOKW", "CC30_LOOKW"],
    "PUFC31_FLWRK" := ["PUFC31_FLWRK", "PUFC25B_FTWORK", "C41_FLWRK", "C41_FLWK", "CC41_FLWRK"],
    "PUFC32_JOBSM" := ["PUFC32_JOBSM", "C39_JOBSM", "C39_JBSM", "CC39_JOBSM", "CC32_JOBSM"],
    "PUFC33_WEEKS" := ["PUFC33_WEEKS", "C40_WEEKS", "C40_WKS", "CC40_WEEKS", "CC33_WEEKS"],
    "PUFC34_WYNOT" := ["PUFC34_WYNOT", "PUFC26_WYNOT", "C42_WYNOT", "C42_WYNT", "CC42_WYNOT"],
    "PUFC35_LTLOOKW" := ["PUFC35_LTLOOKW", "A06_LTLOOKW", "A06_LLKW", "CC35_LTLOOKW"],
    "PUFC36_AVAIL" := ["PUFC36_AVAIL", "PUFC27_AVAIL", "C37_AVAIL", "C37_AVIL", "CC37_AVAIL", "CC36_AVAIL"],
    "PUFC37_WILLING" := ["PUFC37_WILLING", "A07_WILLING", "A07_WLNG"],
    "PUFC38_PREVJOB" := ["PUFC38_PREVJOB", "PUFC28_PREVJOB", "C43_LBEF", "CC43_LBEF"],
    "PUFC39_YEAR" := ["PUFC39_YEAR", "PUFC29_YEAR"],
    "PUFC39_MONTH" := ["PUFC39_MONTH", "PUFC29_MONTH"],
    "PUFC41_POCC" := ["PUFC41_POCC", "PUFC40_POCC", "PUFC31_POCC", "C45_POCC", "CC45_POCC", "C45F2_POCC", "C45L2_POCC", "CC10_POCC"],
    "PUFC43_QKB" := ["PUFC43_QKB", "PUFC33_QKB", "A09_PQKB", "A09F2_PQKB", "A09L2_PQKB", "PQKB", "QKB"]]

  /** COLUMN_PRIORITY of the earlier generation: the current one plus the urban-rural classification. */
  const V7Priority: Priority :=
    V8Priority["PUFURB2015" := ["PUFURB2015", "PUFURB2K10", "URB2K1970", "URB2K70"]]

  /** OUTPUT_SCHEMA of the current generation, in output order. */
  const V8Schema: seq<string> := [
    "PUFREG", "PUFSVYYR", "PUFSVYMO", "PUFHHNUM", "PUFPSU", "PUFHHSIZE", "PUFRPL",
    "PUFPWGTPRV", "PUFC01_LNO", "PUFC03_REL", "PUFC04_SEX", "PUFC05_AGE", "PUFC06_MSTAT",
    "PUFC07_GRADE", "PUFC08_CURSCH", "PUFC09_GRADTECH", "PUFC10_CONWR", "PUFC11_WORK",
    "PUFC12_JOB", "PUFNEWEMPSTAT", "PUFC14_PROCC", "PUFC16_PKB", "PUFC17_NATEM",
    "PUFC18_PNWHRS", "PUFC19_PHOURS", "PUFC20_PWMORE", "PUFC21_PLADDW", "PUFC22_PFWRK",
    "PUFC23_PCLASS", "PUFC24_PBASIS", "PUFC25_PBASIC", "PUFC26_OJOB", "PUFC27_NJOBS",
    "PUFC28_THOURS", "PUFC29_WWM48H", "PUFC30_LOOKW", "PUFC31_FLWRK", "PUFC32_JOBSM",
    "PUFC33_WEEKS", "PUFC34_WYNOT", "PUFC35_LTLOOKW", "PUFC36_AVAIL", "PUFC37_WILLING",
    "PUFC38_PREVJOB", "PUFC39_YEAR", "PUFC39_MONTH", "PUFC41_POCC", "PUFC43_QKB"]

  /** OUTPUT_SCHEMA of the earlier generation, ending with its four derived summary fields. */
  const V7Schema: seq<string> := [
    "PUFREG", "PUFSVYYR", "PUFSVYMO", "PUFHHNUM", "PUFPSU", "PUFHHSIZE", "PUFRPL",
    "PUFPWGTPRV", "PUFC01_LNO", "PUFC03_REL", "PUFC04_SEX", "PUFC05_AGE", "PUFC06_MSTAT",
    "PUFC07_GRADE", "PUFC08_CURSCH", "PUFC09_GRADTECH", "PUFC10_CONWR", "PUFC11_WORK",
    "PUFC12_JOB", "PUFNEWEMPSTAT", "PUFC14_PROCC", "PUFC16_PKB", "PUFC17_NATEM",
    "PUFC18_PNWHRS", "PUFC19_PHOURS", "PUFC20_PWMORE", "PUFC21_PLADDW", "PUFC22_PFWRK",
    "PUFC23_PCLASS", "PUFC24_PBASIS", "PUFC25_PBASIC", "PUFC26_OJOB", "PUFC27_NJOBS",
    "PUFC28_THOURS", "PUFC29_WWM48H", "PUFC30_LOOKW", "PUFC31_FLWRK", "PUFC32_JOBSM",
    "PUFC33_WEEKS", "PUFC34_WYNOT", "PUFC35_LTLOOKW", "PUFC36_AVAIL", "PUFC37_WILLING",
    "PUFC38_PREVJOB", "PUFC39_YEAR", "PUFC39_MONTH", "PUFC41_POCC", "PUFC43_QKB", "PUFURB2015",
    "PUFC14_PROCC_1DIG", "PUFC16_PKB_1DIG", "PUFC07_GRADE_HARM", "PUFC06_MSTAT_HARM"]

  /** TRANSLATION_MAP (the same in both generations). */
  const TranslationMap: map<string, Translators.Kind> := map[
    "PUFC03_REL" := Translators.Rel, "PUFC06_MSTAT" := Translators.Mstat,
    "PUFC07_GRADE" := Translators.Grade, "PUFC10_CONWR" := Translators.Conwr,
    "PUFC17_NATEM" := Translators.Natem, "PUFC20_PWMORE" := Translators.YesNo,
    "PUFC21_PLADDW" := Translators.YesNo, "PUFC22_PFWRK" := Translators.YesNo,
    "PUFC23_PCLASS" := Translators.Pclass, "PUFC24_PBASIS" := Translators.Pbasis,
    "PUFC26_OJOB" := Translators.YesNo, "PUFC30_LOOKW" := Translators.YesNo,
    "PUFC31_FLWRK" := Translators.YesNo, "PUFC34_WYNOT" := Translators.Wynot,
    "PUFC36_AVAIL" := Translators.YesNo, "PUFC37_WILLING" := Translators.YesNo,
    "PUFC38_PREVJOB" := Translators.YesNo, "PUFC11_WORK" := Translators.YesNo,
    "PUFC12_JOB" := Translators.YesNo]

  /** The earlier generation's derived fields: (derived target, original target, recoder). */
  const V7Derived: seq<(string, string, SummaryRecoders.Recoder)> := [
    ("PUFC14_PROCC_1DIG", "PUFC14_PROCC", SummaryRecoders.OccDigit),
    ("PUFC16_PKB_1DIG", "PUFC16_PKB", SummaryRecoders.IndDigit),
    ("PUFC07_GRADE_HARM", "PUFC07_GRADE", SummaryRecoders.EduSummary),
    ("PUFC06_MSTAT_HARM", "PUFC06_MSTAT", SummaryRecoders.MstatSummary)]

  /** The fields whose values are fixed from the release name after mapping. */
  const YearField := "PUFSVYYR"
  const MonthField := "PUFSVYMO"

  /** Columns consulted, in order, when the release name carries no year. */
  const YearFallbackColumns: seq<string> := ["SVYYR", "CYEAR", "PUFSVYYR"]

  /** Every translated field and every derived field's source field is an output field. */
  lemma TablesWithinSchema()
    ensures forall t :: t in TranslationMap ==> t in V8Schema && t in V7Schema
    ensures forall i :: 0 <= i < |V7Derived| ==> V7Derived[i].0 in V7Schema && V7Derived[i].1 in V7Schema
  {
  }
}
