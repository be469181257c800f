/** The CSV loader (etl/load_csv.py): required-column check, per-record
    normalisation into `dashboard_flat` rows, keep-last deduplication on
    (stock_code, year), the column rename and reindex, and the chunked
    insert loop with its multi -> single -> per-row fallback. */
module LoadCsv {
  import opened Wrappers
  import opened PyText
  import opened PyValue
  import opened Sequences
  import opened Transforms
  import opened DashboardFlat

  // ---------------------------------------------------------------------
  // Input frame and its columns
  // ---------------------------------------------------------------------

  /** The CSV columns the loader reads. The ratio and median columns come
      in sixteen pairs, one per ratio. */
  datatype SourceColumn =
    | CodeCol | YearCol | CompanyNameCol | IndustryCodeCol | IndustryNameCol
    | MarketCol | FoundedCol | RatioCol(f: MetricField) | LabelCol
    | IndustryCategoryCol | MedianCol(f: MetricField)

  /** The header text of a ratio column. */
  function RatioHeader(f: MetricField): string {
    match f
    case DefaultProb => "부실징후확률"
    case Icr => "이자보상배율"
    case CapitalImpairmentRatio => "자본잠식률"
    case Opm => "영업이익률"
    case Npm => "순이익률"
    case Roa => "ROA"
    case Roe => "ROE"
    case CurrentRatio => "유동비율"
    case QuickRatio => "당좌비율"
    case DebtRatio => "부채비율"
    case BorrowDependence => "차입금의존도"
    case BeneishMscore => "Beneish M-Score"
    case SalesGrowth => "매출액증가율"
    case OpIncomeGrowth => "영업이익증가율"
    case AssetTurnover => "총자산회전율"
    case ArTurnover => "매출채권회전율"
  }

  /** The header text of each input column. */
  function SourceName(c: SourceColumn): string {
    match c
    case CodeCol => "거래소코드"
    case YearCol => "연도"
    case CompanyNameCol => "회사명"
    case IndustryCodeCol => "산업코드"
    case IndustryNameCol => "산업명"
    case MarketCol => "시장"
    case FoundedCol => "설립일"
    case RatioCol(f) => RatioHeader(f)
    case LabelCol => "label"
    case IndustryCategoryCol => "산업대분류명"
    case MedianCol(f) => "업종중앙값 " + RatioHeader(f)
  }

  /** The table column a ratio is written to. */
  function RatioName(f: MetricField): string {
    match f
    case DefaultProb => "default_prob"
    case Icr => "icr"
    case CapitalImpairmentRatio => "capital_impairment_ratio"
    case Opm => "opm"
    case Npm => "npm"
    case Roa => "roa"
    case Roe => "roe"
    case CurrentRatio => "current_ratio"
    case QuickRatio => "quick_ratio"
    case DebtRatio => "debt_ratio"
    case BorrowDependence => "borrow_dependence"
    case BeneishMscore => "beneish_mscore"
    case SalesGrowth => "sales_growth"
    case OpIncomeGrowth => "op_income_growth"
    case AssetTurnover => "asset_turnover"
    case ArTurnover => "ar_turnover"
  }

  /** The table column a median is written to. */
  function MedianName(f: MetricField): string {
    match f
    case DefaultProb => "median_default_prob"
    case Icr => "median_icr"
    case CapitalImpairmentRatio => "median_capital_impairment_ratio"
    case Opm => "median_opm"
    case Npm => "median_npm"
    case Roa => "median_roa"
    case Roe => "median_roe"
    case CurrentRatio => "median_current_ratio"
    case QuickRatio => "median_quick_ratio"
    case DebtRatio => "median_debt_ratio"
    case BorrowDependence => "median_borrow_dependence"
    case BeneishMscore => "median_beneish_mscore"
    case SalesGrowth => "median_sales_growth"
    case OpIncomeGrowth => "median_op_income_growth"
    case AssetTurnover => "median_asset_turnover"
    case ArTurnover => "median_ar_turnover"
  }

  /** The table column each input column becomes. */
  function OutputName(c: SourceColumn): string {
    match c
    case CodeCol => "stock_code"
    case YearCol => "year"
    case CompanyNameCol => "company_name"
    case IndustryCodeCol => "industry_code"
    case IndustryNameCol => "industry_name"
    case MarketCol => "market"
    case FoundedCol => "founded_year"
    case RatioCol(f) => RatioName(f)
    case LabelCol => "label"
    case IndustryCategoryCol => "industry_category"
    case MedianCol(f) => MedianName(f)
  }

  /** The ratio columns and the median columns, each in `AllFields` order. */
  const RatioCols: seq<SourceColumn> := [
    RatioCol(DefaultProb), RatioCol(Icr), RatioCol(CapitalImpairmentRatio), RatioCol(Opm),
    RatioCol(Npm), RatioCol(Roa), RatioCol(Roe), RatioCol(CurrentRatio),
    RatioCol(QuickRatio), RatioCol(DebtRatio), RatioCol(BorrowDependence), RatioCol(BeneishMscore),
    RatioCol(SalesGrowth), RatioCol(OpIncomeGrowth), RatioCol(AssetTurnover), RatioCol(ArTurnover)]
  const MedianCols: seq<SourceColumn> := [
    MedianCol(DefaultProb), MedianCol(Icr), MedianCol(CapitalImpairmentRatio), MedianCol(Opm),
    MedianCol(Npm), MedianCol(Roa), MedianCol(Roe), MedianCol(CurrentRatio),
    MedianCol(QuickRatio), MedianCol(DebtRatio), MedianCol(BorrowDependence), MedianCol(BeneishMscore),
    MedianCol(SalesGrowth), MedianCol(OpIncomeGrowth), MedianCol(AssetTurnover), MedianCol(ArTurnover)]

  /** The 41 input columns the loader insists on, in its own order. */
  const RequiredColumns: seq<SourceColumn> :=
    [CompanyNameCol, CodeCol, IndustryCodeCol, IndustryNameCol, MarketCol, FoundedCol, YearCol]
    + RatioCols + [LabelCol, IndustryCategoryCol] + MedianCols

  /** The output frame's columns, in the order it builds them. */
  const BuildOrder: seq<SourceColumn> :=
    [CodeCol, YearCol, CompanyNameCol, IndustryCodeCol, IndustryNameCol, MarketCol, FoundedCol]
    + RatioCols + [LabelCol, IndustryCategoryCol] + MedianCols

  /** Every input column is both required and built. */
  lemma ColumnsComplete(c: SourceColumn)
    ensures c in RequiredColumns && c in BuildOrder
  {
    var front := [CompanyNameCol, CodeCol, IndustryCodeCol, IndustryNameCol, MarketCol, FoundedCol, YearCol];
    var built := [CodeCol, YearCol, CompanyNameCol, IndustryCodeCol, IndustryNameCol, MarketCol, FoundedCol];
    var middle := [LabelCol, IndustryCategoryCol];
    assert RequiredColumns == front + RatioCols + middle + MedianCols;
    assert BuildOrder == built + RatioCols + middle + MedianCols;
    match c
    case RatioCol(f) =>
      RatioColsComplete(f);
    case MedianCol(f) =>
      MedianColsComplete(f);
    case LabelCol =>
      assert c in middle;
    case IndustryCategoryCol =>
      assert c in middle;
    case _ =>
      assert c in front && c in built;
  }

  lemma RatioColsComplete(f: MetricField)
    ensures RatioCol(f) in RatioCols
  {
    AllFieldsComplete(f);
    var k :| 0 <= k < 16 && AllFields[k] == f;
    assert RatioCols[k] == RatioCol(f);
  }

  lemma MedianColsComplete(f: MetricField)
    ensures MedianCol(f) in MedianCols
  {
    AllFieldsComplete(f);
    var k :| 0 <= k < 16 && AllFields[k] == f;
    assert MedianCols[k] == MedianCol(f);
  }

  /** A CSV record: header name to cell; a cell the record lacks reads as
      NaN, as pandas reads an empty field. */
  type Record = map<string, Value>

  datatype Frame = Frame(header: seq<string>, records: seq<Record>)

  function Cell(rec: Record, c: SourceColumn): Value {
    var name := SourceName(c);
    if name in rec then rec[name] else Float(NaN)
  }

  // ---------------------------------------------------------------------
  // The required-column check
  // ---------------------------------------------------------------------

  /** The positions of `req`, from `from` on, whose header text `header`
      lacks, in increasing order. */
  function MissingPositions(req: seq<SourceColumn>, header: seq<string>, from: nat): (ps: seq<nat>)
    requires from <= |req|
    ensures forall k :: 0 <= k < |ps| ==> from <= ps[k] < |req| && SourceName(req[ps[k]]) !in header
    ensures forall k, l :: 0 <= k < l < |ps| ==> ps[k] < ps[l]
    ensures forall p :: from <= p < |req| && SourceName(req[p]) !in header ==> p in ps
    decreases |req| - from
  {
    if from == |req| then []
    else
      var rest := MissingPositions(req, header, from + 1);
      if SourceName(req[from]) !in header then [from] + rest else rest
  }

  /** The header texts of the columns of `req` absent from `header`, in
      the order of `req`. */
  function MissingNames(req: seq<SourceColumn>, header: seq<string>): (m: seq<string>)
    ensures m == [] <==> forall c :: c in req ==> SourceName(c) in header
    ensures forall k :: 0 <= k < |m| ==> m[k] !in header
  {
    var ps := MissingPositions(req, header, 0);
    var m := seq(|ps|, k requires 0 <= k < |ps| => SourceName(req[ps[k]]));
    assert ps != [] ==> m[0] !in header;
    m
  }

  /** The report names every absent column of `req`, and lists them as a
      subsequence of `req`: in its order, each at most once per position. */
  lemma MissingNamesSpec(req: seq<SourceColumn>, header: seq<string>)
    ensures forall c :: c in req && SourceName(c) !in header ==> SourceName(c) in MissingNames(req, header)
    ensures exists ps: seq<nat> ::
              && |ps| == |MissingNames(req, header)|
              && (forall k, l :: 0 <= k < l < |ps| ==> ps[k] < ps[l])
              && (forall k :: 0 <= k < |ps| ==>
                    ps[k] < |req| && MissingNames(req, header)[k] == SourceName(req[ps[k]]))
  {
    var ps := MissingPositions(req, header, 0);
    var m := MissingNames(req, header);
    forall c | c in req && SourceName(c) !in header
      ensures SourceName(c) in m
    {
      var p :| 0 <= p < |req| && req[p] == c;
      var k :| 0 <= k < |ps| && ps[k] == p;
      assert m[k] == SourceName(c);
    }
  }

  /** The loader's report: the required columns the header lacks. */
  function MissingColumns(header: seq<string>): seq<string> {
    MissingNames(RequiredColumns, header)
  }

  // ---------------------------------------------------------------------
  // Column mapping
  // ---------------------------------------------------------------------

  /** The conversion applied to column `c` does not raise on this record:
      `astype(int)` for the year, `astype(float)` for the ratios, and
      `binarize_label` for the label; the others never raise. */
  predicate CastOk(rec: Record, c: SourceColumn) {
    match c
    case YearCol => ToInt(Cell(rec, c)).Some?
    case RatioCol(_) => ToFloat(Cell(rec, c)).Some?
    case MedianCol(_) => ToFloat(Cell(rec, c)).Some?
    case LabelCol => BinarizeLabel(Cell(rec, c)).Some?
    case _ => true
  }

  /** Every column of the record converts. */
  ghost predicate RecordOk(rec: Record) {
    forall c :: CastOk(rec, c)
  }

  /** Some record raises in column `c`. */
  predicate ColumnFails(records: seq<Record>, c: SourceColumn) {
    exists i :: 0 <= i < |records| && !CastOk(records[i], c)
  }

  /** The first position of `BuildOrder`, from `from` on, whose cast raises
      on some record: pandas converts column by column, so that column's
      error is the one raised. */
  function FirstFailingColumn(records: seq<Record>, from: nat): (k: Option<nat>)
    requires from <= |BuildOrder|
    ensures k.Some? ==> from <= k.value < |BuildOrder| && ColumnFails(records, BuildOrder[k.value])
    ensures k.Some? ==> forall j :: from <= j < k.value ==> !ColumnFails(records, BuildOrder[j])
    ensures k.None? ==> forall j :: from <= j < |BuildOrder| ==> !ColumnFails(records, BuildOrder[j])
    decreases |BuildOrder| - from
  {
    if from == |BuildOrder| then None
    else if ColumnFails(records, BuildOrder[from]) then Some(from)
    else FirstFailingColumn(records, from + 1)
  }

  /** NaN and the infinities become NULL before the insert. */
  function Numeric(d: Double): (r: Option<real>)
    ensures r.Some? <==> d.Finite?
    ensures r.Some? ==> r.value == d.x
  {
    if d.Finite? then Some(d.x) else None
  }

  /** A ratio cell after `astype(float)` and the NULL clean-up. */
  function RatioValue(rec: Record, c: SourceColumn): Option<real> {
    match ToFloat(Cell(rec, c))
    case Some(d) => Numeric(d)
    case None => None
  }

  /** `astype(str)` of the stock-code column after NULLs were introduced:
      a NULL code becomes the text "None". */
  function CodeText(code: Option<string>): string {
    match code
    case None => "None"
    case Some(s) => s
  }

  /** A normalised record before deduplication: the padded code as it
      stands at `drop_duplicates` time, and the row it becomes. */
  datatype Staged = Staged(code: Option<string>, row: Row)

  /** The deduplication key. */
  function StageKey(st: Staged): (Option<string>, int) {
    (st.code, st.row.year)
  }

  /** Padded codes are at least six characters long, and the row carries
      their text. */
  predicate WellStaged(st: Staged) {
    && (st.code.Some? ==> |st.code.value| >= 6)
    && st.row.stockCode == CodeText(st.code)
  }

  /** One record through the column mapping and the NULL clean-up. */
  function Stage(rec: Record): (st: Staged)
    requires RecordOk(rec)
    ensures WellStaged(st)
    ensures st.code == Zfill6(Cell(rec, CodeCol))
    ensures st.row.year == ToInt(Cell(rec, YearCol)).value
    ensures st.row.companyName == PyStr(Cell(rec, CompanyNameCol))
    ensures st.row.industryCode == Some(PyStr(Cell(rec, IndustryCodeCol)))
    ensures st.row.industryName == Some(PyStr(Cell(rec, IndustryNameCol)))
    ensures st.row.industryCategory == Some(PyStr(Cell(rec, IndustryCategoryCol)))
    ensures st.row.newsTitles.None?
    ensures st.row.market == Some(PyStr(Cell(rec, MarketCol)))
    ensures st.row.foundedYear == ToYear(Cell(rec, FoundedCol))
    ensures st.row.riskLabel == BinarizeLabel(Cell(rec, LabelCol))
    ensures LabelOk(st.row.riskLabel)
    ensures forall f :: Field(st.row.metrics, f) == RatioValue(rec, RatioCol(f))
    ensures forall f :: Field(st.row.medians, f) == RatioValue(rec, MedianCol(f))
  {
    assert CastOk(rec, YearCol) && CastOk(rec, LabelCol);
    var code := Zfill6(Cell(rec, CodeCol));
    var row := Row(
      stockCode := CodeText(code),
      year := ToInt(Cell(rec, YearCol)).value,
      companyName := PyStr(Cell(rec, CompanyNameCol)),
      industryCode := Some(PyStr(Cell(rec, IndustryCodeCol))),
      industryName := Some(PyStr(Cell(rec, IndustryNameCol))),
      industryCategory := Some(PyStr(Cell(rec, IndustryCategoryCol))),
      market := Some(PyStr(Cell(rec, MarketCol))),
      foundedYear := ToYear(Cell(rec, FoundedCol)),
      newsTitles := None,
      metrics := MetricsOf(f => RatioValue(rec, RatioCol(f))),
      riskLabel := BinarizeLabel(Cell(rec, LabelCol)),
      medians := MetricsOf(f => RatioValue(rec, MedianCol(f))));
    Staged(code, row)
  }

  /** Why a run stops before touching the table. */
  datatype LoadError =
    | MissingRequired(columns: seq<string>)
    | CastFailed(column: string)

  /** The column mapping over all records: it raises with the first column
      whose cast fails anywhere, and otherwise stages every record. */
  function NormalizeAll(records: seq<Record>): (r: Result<seq<Staged>, LoadError>)
    ensures r.Success? <==> forall i :: 0 <= i < |records| ==> RecordOk(records[i])
    ensures r.Success? ==> |r.value| == |records|
    ensures r.Success? ==> forall i :: 0 <= i < |records| ==> r.value[i] == Stage(records[i])
    ensures r.Success? ==> forall i :: 0 <= i < |r.value| ==> WellStaged(r.value[i]) && LabelOk(r.value[i].row.riskLabel)
  {
    match FirstFailingColumn(records, 0)
    case Some(k) =>
      assert ColumnFails(records, BuildOrder[k]);
      Failure(CastFailed(SourceName(BuildOrder[k])))
    case None =>
      assert forall i :: 0 <= i < |records| ==> RecordOk(records[i]) by {
        forall i, c | 0 <= i < |records|
          ensures CastOk(records[i], c)
        {
          ColumnsComplete(c);
          var j :| 0 <= j < |BuildOrder| && BuildOrder[j] == c;
          assert !ColumnFails(records, BuildOrder[j]);
        }
      }
      Success(StageAll(records))
  }

  function StageAll(records: seq<Record>): (staged: seq<Staged>)
    requires forall i :: 0 <= i < |records| ==> RecordOk(records[i])
    ensures |staged| == |records| && forall i :: 0 <= i < |records| ==> staged[i] == Stage(records[i])
    ensures forall i :: 0 <= i < |staged| ==> WellStaged(staged[i]) && LabelOk(staged[i].row.riskLabel)
  {
    var staged := seq(|records|, i requires 0 <= i < |records| => Stage(records[i]));
    forall i | 0 <= i < |staged|
      ensures WellStaged(staged[i]) && LabelOk(staged[i].row.riskLabel)
    {
      StageWell(records[i]);
    }
    staged
  }

  lemma StageWell(rec: Record)
    requires RecordOk(rec)
    ensures WellStaged(Stage(rec)) && LabelOk(Stage(rec).row.riskLabel)
  {
  }

  /** Staged keys that differ give row keys that differ: "None" is too short
      to be a padded code. */
  lemma CodeTextInjective(a: Staged, b: Staged)
    requires WellStaged(a) && WellStaged(b)
    ensures Key(a.row) == Key(b.row) <==> StageKey(a) == StageKey(b)
  {
  }

  function RowsOf(staged: seq<Staged>): (rows: seq<Row>)
    ensures |rows| == |staged| && forall i :: 0 <= i < |staged| ==> rows[i] == staged[i].row
  {
    seq(|staged|, i requires 0 <= i < |staged| => staged[i].row)
  }

  // ---------------------------------------------------------------------
  // Column rename and reindex
  // ---------------------------------------------------------------------

  /** The number of decimal digits `c` ends with. */
  function TrailingDigits(c: string): (n: nat)
    ensures n <= |c|
    ensures forall j :: |c| - n <= j < |c| ==> IsDigit(c[j])
    ensures n < |c| ==> !IsDigit(c[|c| - n - 1])
  {
    if c != [] && IsDigit(c[|c| - 1]) then
      var front := c[..|c| - 1];
      var n := TrailingDigits(front);
      assert forall j :: 0 <= j < |front| ==> front[j] == c[j];
      n + 1
    else 0
  }

  /** `re.sub(r"_m\d+$", "", c)`: "_m" followed by one or more digits that
      end the name is removed; any other name is kept. */
  function StripSuffix(c: string): (r: string)
    ensures |r| <= |c| && r == c[..|r|]
    ensures r != c <==> TrailingDigits(c) >= 1 && |c| >= TrailingDigits(c) + 2
                          && c[|c| - TrailingDigits(c) - 2] == '_' && c[|c| - TrailingDigits(c) - 1] == 'm'
    ensures r != c ==> |r| == |c| - TrailingDigits(c) - 2
  {
    var n := TrailingDigits(c);
    if n >= 1 && |c| >= n + 2 && c[|c| - n - 2] == '_' && c[|c| - n - 1] == 'm' then
      c[..|c| - n - 2]
    else c
  }

  /** The rename the loader applies to every output column, with its
      "ustry_category" repair. */
  function Rename(c: string): string {
    var s := StripSuffix(c);
    if s == "ustry_category" then "industry_category" else s
  }

  /** The table's column order the loader reindexes to. */
  const SchemaColumns: seq<string> := [
    "stock_code", "year", "company_name", "industry_code",
    "industry_name", "market", "founded_year", "default_prob",
    "icr", "capital_impairment_ratio", "opm", "npm",
    "roa", "roe", "current_ratio", "quick_ratio",
    "debt_ratio", "borrow_dependence", "beneish_mscore", "sales_growth",
    "op_income_growth", "asset_turnover", "ar_turnover", "label",
    "industry_category", "median_default_prob", "median_icr", "median_capital_impairment_ratio",
    "median_opm", "median_npm", "median_roa", "median_roe",
    "median_current_ratio", "median_quick_ratio", "median_debt_ratio", "median_borrow_dependence",
    "median_beneish_mscore", "median_sales_growth", "median_op_income_growth", "median_asset_turnover",
    "median_ar_turnover"
  ]

  predicate EndsInLetter(s: string) {
    s != [] && 'a' <= s[|s| - 1] <= 'z'
  }

  lemma RatioNameEndsInLetter(f: MetricField)
    ensures EndsInLetter(RatioName(f))
  {
    match f
    case DefaultProb =>
    case Icr =>
    case CapitalImpairmentRatio =>
    case Opm =>
    case Npm =>
    case Roa =>
    case Roe =>
    case CurrentRatio =>
    case QuickRatio =>
    case DebtRatio =>
    case BorrowDependence =>
    case BeneishMscore =>
    case SalesGrowth =>
    case OpIncomeGrowth =>
    case AssetTurnover =>
    case ArTurnover =>
  }

  lemma RatioNameNotUstry(f: MetricField)
    ensures RatioName(f) != "ustry_category"
  {
    match f
    case DefaultProb =>
    case Icr =>
    case CapitalImpairmentRatio =>
    case Opm =>
    case Npm =>
    case Roa =>
    case Roe =>
    case CurrentRatio =>
    case QuickRatio =>
    case DebtRatio =>
    case BorrowDependence =>
    case BeneishMscore =>
    case SalesGrowth =>
    case OpIncomeGrowth =>
    case AssetTurnover =>
    case ArTurnover =>
  }

  lemma MedianNameEndsInLetter(f: MetricField)
    ensures EndsInLetter(MedianName(f)) && MedianName(f)[0] == 'm'
  {
    match f
    case DefaultProb =>
    case Icr =>
    case CapitalImpairmentRatio =>
    case Opm =>
    case Npm =>
    case Roa =>
    case Roe =>
    case CurrentRatio =>
    case QuickRatio =>
    case DebtRatio =>
    case BorrowDependence =>
    case BeneishMscore =>
    case SalesGrowth =>
    case OpIncomeGrowth =>
    case AssetTurnover =>
    case ArTurnover =>
  }

  lemma OutputNameEndsInLetter(c: SourceColumn)
    ensures EndsInLetter(OutputName(c))
  {
    match c
    case RatioCol(f) =>
      RatioNameEndsInLetter(f);
    case MedianCol(f) =>
      MedianNameEndsInLetter(f);
    case _ =>
  }

  /** The rename changes none of the built column names. */
  lemma RenameIsIdentity(c: SourceColumn)
    ensures Rename(OutputName(c)) == OutputName(c)
  {
    OutputNameEndsInLetter(c);
    var n := OutputName(c);
    assert TrailingDigits(n) == 0;
    match c
    case RatioCol(f) =>
      RatioNameNotUstry(f);
    case MedianCol(f) =>
      MedianNameEndsInLetter(f);
    case _ =>
  }

  lemma ReindexFront()
    ensures forall k :: 0 <= k < 7 ==> OutputName(BuildOrder[k]) == SchemaColumns[k]
  {
  }

  lemma ReindexSpan7()
    ensures forall k :: 7 <= k < 11 ==> OutputName(BuildOrder[k]) == SchemaColumns[k]
  {
  }

  lemma ReindexSpan11()
    ensures forall k :: 11 <= k < 15 ==> OutputName(BuildOrder[k]) == SchemaColumns[k]
  {
  }

  lemma ReindexSpan15()
    ensures forall k :: 15 <= k < 19 ==> OutputName(BuildOrder[k]) == SchemaColumns[k]
  {
  }

  lemma ReindexSpan19()
    ensures forall k :: 19 <= k < 23 ==> OutputName(BuildOrder[k]) == SchemaColumns[k]
  {
  }

  lemma ReindexSpan23()
    ensures forall k :: 23 <= k < 25 ==> OutputName(BuildOrder[k]) == SchemaColumns[k]
  {
  }

  lemma ReindexSpan25()
    ensures forall k :: 25 <= k < 29 ==> OutputName(BuildOrder[k]) == SchemaColumns[k]
  {
  }

  lemma ReindexSpan29()
    ensures forall k :: 29 <= k < 33 ==> OutputName(BuildOrder[k]) == SchemaColumns[k]
  {
  }

  lemma ReindexSpan33()
    ensures forall k :: 33 <= k < 37 ==> OutputName(BuildOrder[k]) == SchemaColumns[k]
  {
  }

  lemma ReindexSpan37()
    ensures forall k :: 37 <= k < 41 ==> OutputName(BuildOrder[k]) == SchemaColumns[k]
  {
  }

  /** The reindex finds the built columns already in the table's order, so
      it neither moves, drops nor adds a column. */
  lemma ReindexIsIdentity()
    ensures |BuildOrder| == |SchemaColumns| == 41
    ensures forall k :: 0 <= k < |BuildOrder| ==> OutputName(BuildOrder[k]) == SchemaColumns[k]
  {
    ReindexFront();
    ReindexSpan7();
    ReindexSpan11();
    ReindexSpan15();
    ReindexSpan19();
    ReindexSpan23();
    ReindexSpan25();
    ReindexSpan29();
    ReindexSpan33();
    ReindexSpan37();
  }

  // ---------------------------------------------------------------------
  // Preparing the rows
  // ---------------------------------------------------------------------

  /** Everything the loader does before its first database statement:
      the column check, the mapping, keep-last deduplication on
      (stock_code, year), and the code's text conversion. */
  function Prepare(frame: Frame): (r: Result<seq<Row>, LoadError>)
    ensures MissingColumns(frame.header) != [] ==>
              r == Failure(MissingRequired(MissingColumns(frame.header)))
    ensures MissingColumns(frame.header) == [] ==>
              (r.Success? <==> forall i :: 0 <= i < |frame.records| ==> RecordOk(frame.records[i]))
    ensures r.Success? ==> |r.value| <= |frame.records| && KeysUnique(r.value)
    ensures r.Success? ==> forall i :: 0 <= i < |r.value| ==> LabelOk(r.value[i].riskLabel)
  {
    var missing := MissingColumns(frame.header);
    if missing != [] then Failure(MissingRequired(missing))
    else
      match NormalizeAll(frame.records)
      case Failure(e) => Failure(e)
      case Success(staged) =>
        Success(KeptRows(staged))
  }

  /** The rows written: the last staged row of each key, codes as text. */
  function KeptRows(staged: seq<Staged>): (rows: seq<Row>)
    requires forall i :: 0 <= i < |staged| ==> WellStaged(staged[i]) && LabelOk(staged[i].row.riskLabel)
    ensures |rows| <= |staged| && KeysUnique(rows)
    ensures forall i :: 0 <= i < |rows| ==> LabelOk(rows[i].riskLabel)
    ensures |rows| == |LastPositions(staged, StageKey)|
    ensures forall k :: 0 <= k < |rows| ==>
              LastPositions(staged, StageKey)[k] < |staged| && rows[k] == staged[LastPositions(staged, StageKey)[k]].row
  {
    DedupRowsUnique(staged);
    RowsOf(DedupLast(staged, StageKey))
  }

  /** A successful preparation stages every record and keeps the rows
      `KeptRows` selects. */
  lemma PrepareIsKeptRows(frame: Frame)
    requires Prepare(frame).Success?
    ensures forall i :: 0 <= i < |frame.records| ==> RecordOk(frame.records[i])
    ensures Prepare(frame).value == KeptRows(StageAll(frame.records))
  {
    var staged := NormalizeAll(frame.records).value;
    assert staged == StageAll(frame.records);
  }

  /** The kept rows follow the input order, and no later staged row has
      the key of a kept one: each kept row is the last of its key. */
  lemma KeptRowsAreLast(staged: seq<Staged>)
    requires forall i :: 0 <= i < |staged| ==> WellStaged(staged[i]) && LabelOk(staged[i].row.riskLabel)
    ensures var ix := LastPositions(staged, StageKey);
            && (forall k, l :: 0 <= k < l < |ix| ==> ix[k] < ix[l])
            && (forall k, j :: 0 <= k < |ix| && ix[k] < j < |staged| ==>
                  Key(staged[j].row) != Key(KeptRows(staged)[k]))
  {
    var ix := LastPositions(staged, StageKey);
    var rows := KeptRows(staged);
    LastPositionsSpec(staged, StageKey);
    forall k, j | 0 <= k < |ix| && ix[k] < j < |staged|
      ensures Key(staged[j].row) != Key(rows[k])
    {
      assert IsLastOfKey(staged, StageKey, ix[k]);
      CodeTextInjective(staged[j], staged[ix[k]]);
    }
  }

  /** Every staged row's (code, year) key is among the kept rows. */
  lemma KeptRowsKeepEveryKey(staged: seq<Staged>, i: nat)
    requires forall i :: 0 <= i < |staged| ==> WellStaged(staged[i]) && LabelOk(staged[i].row.riskLabel)
    requires i < |staged|
    ensures exists k :: 0 <= k < |KeptRows(staged)| && Key(KeptRows(staged)[k]) == Key(staged[i].row)
  {
    var rows := KeptRows(staged);
    var kept := DedupLast(staged, StageKey);
    DedupLastKeepsEveryKey(staged, StageKey, i);
    var k :| 0 <= k < |kept| && StageKey(kept[k]) == StageKey(staged[i]);
    CodeTextInjective(kept[k], staged[i]);
    assert rows[k] == kept[k].row;
  }

  /** Deduplicating on (padded code, year) and then writing NULL codes as
      "None" leaves no two rows with the same primary key. */
  lemma DedupRowsUnique(staged: seq<Staged>)
    requires forall i :: 0 <= i < |staged| ==> WellStaged(staged[i])
    ensures KeysUnique(RowsOf(DedupLast(staged, StageKey)))
  {
    var kept := DedupLast(staged, StageKey);
    var rows := RowsOf(kept);
    forall i, j | 0 <= i < j < |rows|
      ensures Key(rows[i]) != Key(rows[j])
    {
      CodeTextInjective(kept[i], kept[j]);
    }
  }

  /** A record with an empty code cell keeps a NULL code through
      deduplication and is then written with the text "None". */
  lemma MissingCodeBecomesNoneText(rec: Record)
    requires RecordOk(rec) && IsNa(Cell(rec, CodeCol))
    ensures Stage(rec).row.stockCode == "None"
  {
  }

  /** An empty market cell becomes the text "nan", which the market check
      rejects: such a row can never be inserted. */
  lemma MissingMarketFailsCheck(rec: Record)
    requires RecordOk(rec) && SourceName(MarketCol) !in rec
    ensures Stage(rec).row.market == Some("nan")
    ensures !RowOk(Stage(rec).row)
  {
    assert Cell(rec, MarketCol) == Float(NaN);
    assert PyStr(Float(NaN)) == "nan";
    assert !MarketOk(Some("nan")) by {
      assert "nan" != "KOSPI" && "nan" != "KOSDAQ" && "nan" != "비상장";
    }
  }

  /** A NaN label passes the `float()` guard and then makes `round` raise,
      so the whole run stops before any database statement. */
  lemma NanLabelStopsRun(frame: Frame, i: nat)
    requires MissingColumns(frame.header) == []
    requires i < |frame.records| && Cell(frame.records[i], LabelCol) == Float(NaN)
    ensures Prepare(frame).Failure? && Prepare(frame).error.CastFailed?
  {
    assert !RecordOk(frame.records[i]) by {
      assert !CastOk(frame.records[i], LabelCol);
    }
  }

  // ---------------------------------------------------------------------
  // The chunked insert loop
  // ---------------------------------------------------------------------

  const ChunkSize: nat := 4000

  /** `to_sql` with `method="multi"`, with `method=None`, or for one row. */
  datatype Mode = Multi | Single | PerRow

  /** Whether an insert of `batch` in `mode` into the table as it stands
      commits. Each call is its own transaction: it adds all of `batch` or
      nothing. */
  type Oracle = (Mode, seq<Row>, seq<Row>) -> bool

  datatype LoadOutcome = Completed | Aborted(row: nat)

  /** The chunk starting at `s` got committed by one of the three tiers. */
  predicate ChunkCommitted(initial: seq<Row>, rows: seq<Row>, s: nat, accepts: Oracle)
    requires s <= |rows|
  {
    var e := Min(s + ChunkSize, |rows|);
    || accepts(Multi, initial + rows[..s], rows[s..e])
    || accepts(Single, initial + rows[..s], rows[s..e])
    || forall j :: s <= j < e ==> accepts(PerRow, initial + rows[..j], [rows[j]])
  }

  /** Chunk `k` of the 4000-row slicing `range(0, len(rows), 4000)` is the
      slice `ChunkCommitted` speaks of at the start `k * 4000`. */
  lemma ChunkIsCommittedSlice(rows: seq<Row>, k: nat)
    requires k < |Chunks(rows, ChunkSize)|
    ensures var s := k * ChunkSize;
            s < |rows| && s % ChunkSize == 0
            && Chunks(rows, ChunkSize)[k] == rows[s..Min(s + ChunkSize, |rows|)]
  {
    ChunkAt(rows, ChunkSize, k);
  }

  /** An oracle that only commits inserts keeping the table valid. */
  ghost predicate KeepsValid(accepts: Oracle) {
    forall m, t, c :: accepts(m, t, c) && ValidTable(t) ==> ValidTable(t + c)
  }

  /** The loop over chunks `[i, i + 4000)`: each chunk is tried in multi
      mode, then in single mode, then row by row; the run stops at the first
      row that fails on its own. The committed rows always form a prefix of
      `rows`. */
  method LoadChunks(rows: seq<Row>, initial: seq<Row>, accepts: Oracle)
    returns (table: seq<Row>, outcome: LoadOutcome)
    ensures outcome.Completed? ==> table == initial + rows
    ensures outcome.Completed? ==>
              forall s :: 0 <= s < |rows| && s % ChunkSize == 0 ==> ChunkCommitted(initial, rows, s, accepts)
    ensures outcome.Aborted? ==> outcome.row < |rows| && table == initial + rows[..outcome.row]
    ensures outcome.Aborted? ==> !accepts(PerRow, table, [rows[outcome.row]])
    ensures outcome.Aborted? ==>
              var s := outcome.row / ChunkSize * ChunkSize;
              var e := Min(s + ChunkSize, |rows|);
              && !accepts(Multi, initial + rows[..s], rows[s..e])
              && !accepts(Single, initial + rows[..s], rows[s..e])
              && (forall j :: s <= j < outcome.row ==> accepts(PerRow, initial + rows[..j], [rows[j]]))
              && forall s' :: 0 <= s' < s && s' % ChunkSize == 0 ==> ChunkCommitted(initial, rows, s', accepts)
    ensures KeepsValid(accepts) && ValidTable(initial) ==> ValidTable(table)
  {
    table := initial;
    var i := 0;
    while i < |rows|
      invariant 0 <= i <= |rows|
      invariant i % ChunkSize == 0 || i == |rows|
      invariant table == initial + rows[..i]
      invariant forall s :: 0 <= s < i && s % ChunkSize == 0 ==> ChunkCommitted(initial, rows, s, accepts)
      invariant KeepsValid(accepts) && ValidTable(initial) ==> ValidTable(table)
    {
      var e := Min(i + ChunkSize, |rows|);
      var chunk := rows[i..e];
      assert rows[..i] + chunk == rows[..e];
      if accepts(Multi, table, chunk) {
        table := table + chunk;
      } else if accepts(Single, table, chunk) {
        table := table + chunk;
      } else {
        var failed;
        table, failed := InsertRowByRow(rows, initial, i, e, accepts);
        if failed.Some? {
          ChunkStartOf(i, failed.value);
          outcome := Aborted(failed.value);
          return;
        }
      }
      assert ChunkCommitted(initial, rows, i, accepts);
      NoChunkStartInside(i, e);
      i := e;
    }
    assert rows[..i] == rows;
    outcome := Completed;
  }

  /** The fallback for a chunk both bulk modes rejected: its rows are
      inserted one by one, stopping at the first the database rejects. */
  method InsertRowByRow(rows: seq<Row>, initial: seq<Row>, i: nat, e: nat, accepts: Oracle)
    returns (table: seq<Row>, failed: Option<nat>)
    requires i <= e <= |rows|
    ensures failed.None? ==> table == initial + rows[..e]
    ensures failed.Some? ==> i <= failed.value < e && table == initial + rows[..failed.value]
                             && !accepts(PerRow, table, [rows[failed.value]])
    ensures var stop := if failed.Some? then failed.value else e;
            forall j :: i <= j < stop ==> accepts(PerRow, initial + rows[..j], [rows[j]])
    ensures KeepsValid(accepts) && ValidTable(initial + rows[..i]) ==> ValidTable(table)
  {
    table := initial + rows[..i];
    var j := i;
    while j < e
      invariant i <= j <= e
      invariant table == initial + rows[..j]
      invariant forall j' :: i <= j' < j ==> accepts(PerRow, initial + rows[..j'], [rows[j']])
      invariant KeepsValid(accepts) && ValidTable(initial + rows[..i]) ==> ValidTable(table)
    {
      if !accepts(PerRow, table, [rows[j]]) {
        return table, Some(j);
      }
      assert rows[..j] + [rows[j]] == rows[..j + 1];
      table := table + [rows[j]];
      j := j + 1;
    }
    failed := None;
  }

  /** A row inside the chunk starting at `i` belongs to that chunk. */
  lemma ChunkStartOf(i: nat, j: nat)
    requires i % ChunkSize == 0 && i <= j < i + ChunkSize
    ensures j / ChunkSize * ChunkSize == i
  {
  }

  /** No chunk other than the one at `i` starts before `e`. */
  lemma NoChunkStartInside(i: nat, e: nat)
    requires i % ChunkSize == 0 && e <= i + ChunkSize
    ensures forall s :: i < s < e ==> s % ChunkSize != 0
  {
  }

  /** The database's own verdict on a transactional insert. */
  function DbAccepts(m: Mode, t: seq<Row>, batch: seq<Row>): bool {
    InsertAll(t, batch).Success?
  }

  /** With the database deciding each insert, a valid table stays valid
      whatever the loader commits. */
  lemma DbKeepsValid()
    ensures KeepsValid(DbAccepts)
  {
  }

  datatype RunOutcome = Rejected(error: LoadError) | Loaded(load: LoadOutcome)

  /** `main`: prepare the rows, optionally truncate, then run the chunk
      loop. A rejected run leaves the table untouched; otherwise the table
      ends as the base (empty after truncation) followed by a prefix of the
      prepared rows, all of them when the loop completes. */
  method Run(frame: Frame, truncate: bool, current: seq<Row>, accepts: Oracle)
    returns (table: seq<Row>, outcome: RunOutcome)
    ensures Prepare(frame).Failure? ==> table == current && outcome == Rejected(Prepare(frame).error)
    ensures Prepare(frame).Success? ==> outcome.Loaded?
    ensures outcome.Loaded? ==>
              var rows := Prepare(frame).value;
              var base := if truncate then [] else current;
              && (outcome.load.Completed? ==> table == base + rows)
              && (outcome.load.Aborted? ==> outcome.load.row < |rows| && table == base + rows[..outcome.load.row])
    ensures truncate && outcome.Loaded? ==> IsPrefixOf(table, Prepare(frame).value)
    ensures KeepsValid(accepts) && ValidTable(current) ==> ValidTable(table)
  {
    var prepared := Prepare(frame);
    if prepared.Failure? {
      return current, Rejected(prepared.error);
    }
    var load;
    if truncate {
      assert ValidTable([]);
      table, load := LoadChunks(prepared.value, [], accepts);
      LoadedIsPrefix(prepared.value, table, load);
    } else {
      table, load := LoadChunks(prepared.value, current, accepts);
    }
    outcome := Loaded(load);
  }

  /** After a truncation the table is a prefix of the prepared rows. */
  lemma LoadedIsPrefix(rows: seq<Row>, table: seq<Row>, load: LoadOutcome)
    requires load.Completed? ==> table == [] + rows
    requires load.Aborted? ==> load.row < |rows| && table == [] + rows[..load.row]
    ensures IsPrefixOf(table, rows)
  {
    if load.Aborted? {
      assert table == rows[..load.row];
    } else {
      assert table == rows;
    }
  }

  predicate IsPrefixOf(a: seq<Row>, b: seq<Row>) {
    |a| <= |b| && a == b[..|a|]
  }
}
