/** The `dashboard_flat` table: one row per (stock code, year) holding the
    company's ratios and the industry medians of the same ratios, with the
    table's primary key and its two check constraints. */
module DashboardFlat {
  import opened Wrappers

  /** The sixteen ratio columns. The table holds them twice: for the company
      (`default_prob`, `icr`, ...) and as industry medians (`median_*`). */
  datatype Metrics = Metrics(
    defaultProb: Option<real>,
    icr: Option<real>,
    capitalImpairmentRatio: Option<real>,
    opm: Option<real>,
    npm: Option<real>,
    roa: Option<real>,
    roe: Option<real>,
    currentRatio: Option<real>,
    quickRatio: Option<real>,
    debtRatio: Option<real>,
    borrowDependence: Option<real>,
    beneishMscore: Option<real>,
    salesGrowth: Option<real>,
    opIncomeGrowth: Option<real>,
    assetTurnover: Option<real>,
    arTurnover: Option<real>)

  /** Names one of the sixteen ratio columns. */
  datatype MetricField =
    | DefaultProb | Icr | CapitalImpairmentRatio | Opm | Npm | Roa | Roe
    | CurrentRatio | QuickRatio | DebtRatio | BorrowDependence | BeneishMscore
    | SalesGrowth | OpIncomeGrowth | AssetTurnover | ArTurnover

  /** The value of column `f`. */
  function Field(m: Metrics, f: MetricField): Option<real> {
    match f
    case DefaultProb => m.defaultProb
    case Icr => m.icr
    case CapitalImpairmentRatio => m.capitalImpairmentRatio
    case Opm => m.opm
    case Npm => m.npm
    case Roa => m.roa
    case Roe => m.roe
    case CurrentRatio => m.currentRatio
    case QuickRatio => m.quickRatio
    case DebtRatio => m.debtRatio
    case BorrowDependence => m.borrowDependence
    case BeneishMscore => m.beneishMscore
    case SalesGrowth => m.salesGrowth
    case OpIncomeGrowth => m.opIncomeGrowth
    case AssetTurnover => m.assetTurnover
    case ArTurnover => m.arTurnover
  }

  /** The sixteen ratio columns in the table's column order. */
  const AllFields: seq<MetricField> := [
    DefaultProb, Icr, CapitalImpairmentRatio, Opm, Npm, Roa, Roe,
    CurrentRatio, QuickRatio, DebtRatio, BorrowDependence, BeneishMscore,
    SalesGrowth, OpIncomeGrowth, AssetTurnover, ArTurnover]

  lemma AllFieldsComplete(f: MetricField)
    ensures f in AllFields
  {
  }

  /** The metrics whose column `f` holds `g(f)`. */
  function MetricsOf(g: MetricField -> Option<real>): (m: Metrics)
    ensures forall f :: Field(m, f) == g(f)
  {
    Metrics(g(DefaultProb), g(Icr), g(CapitalImpairmentRatio), g(Opm), g(Npm), g(Roa), g(Roe),
            g(CurrentRatio), g(QuickRatio), g(DebtRatio), g(BorrowDependence), g(BeneishMscore),
            g(SalesGrowth), g(OpIncomeGrowth), g(AssetTurnover), g(ArTurnover))
  }

  /** A row of `dashboard_flat`. `companyName` is NOT NULL, so it is not an
      `Option`; every other non-key column is nullable. */
  datatype Row = Row(
    stockCode: string,
    year: int,
    companyName: string,
    industryCode: Option<string>,
    industryName: Option<string>,
    industryCategory: Option<string>,
    market: Option<string>,
    foundedYear: Option<int>,
    newsTitles: Option<seq<string>>,
    metrics: Metrics,
    riskLabel: Option<int>,   // column `label`
    medians: Metrics)

  /** `stock_code` is declared `String(10)`. */
  const StockCodeMaxLength: nat := 10

  /** The values `dashboard_flat_market_check` admits besides NULL. */
  const Markets: set<string> := {"KOSPI", "KOSDAQ", "비상장"}

  /** `dashboard_flat_market_check`. */
  predicate MarketOk(m: Option<string>) {
    m.None? || m.value in Markets
  }

  /** `chk_dashboard_flat_label_binary`. */
  predicate LabelOk(l: Option<int>) {
    l.None? || l.value == 0 || l.value == 1
  }

  /** The per-row constraints the database enforces on every insert. */
  predicate RowOk(r: Row) {
    |r.stockCode| <= StockCodeMaxLength && MarketOk(r.market) && LabelOk(r.riskLabel)
  }

  /** The composite primary key. */
  function Key(r: Row): (string, int) {
    (r.stockCode, r.year)
  }

  predicate KeysUnique(t: seq<Row>) {
    forall i, j :: 0 <= i < j < |t| ==> Key(t[i]) != Key(t[j])
  }

  /** The table invariant: every row passes its checks and no two rows share
      a primary key. */
  predicate ValidTable(t: seq<Row>) {
    (forall i :: 0 <= i < |t| ==> RowOk(t[i])) && KeysUnique(t)
  }

  /** Which constraint an insert violated. */
  datatype Violation = CodeTooLong | MarketCheck | LabelCheck | DuplicateKey

  /** The first violation `r` causes when inserted into `t`, if any. */
  function RowViolation(t: seq<Row>, r: Row): (v: Option<Violation>)
    ensures v.None? <==> RowOk(r) && forall i :: 0 <= i < |t| ==> Key(t[i]) != Key(r)
  {
    if |r.stockCode| > StockCodeMaxLength then Some(CodeTooLong)
    else if !MarketOk(r.market) then Some(MarketCheck)
    else if !LabelOk(r.riskLabel) then Some(LabelCheck)
    else if exists i :: 0 <= i < |t| && Key(t[i]) == Key(r) then Some(DuplicateKey)
    else None
  }

  /** A transactional insert of `batch` into `t`, row by row: it commits all
      rows or, at the first violation, none. */
  function InsertAll(t: seq<Row>, batch: seq<Row>): (r: Result<seq<Row>, Violation>)
    ensures r.Success? ==> r.value == t + batch
    ensures ValidTable(t) ==> (r.Success? <==> ValidTable(t + batch))
    decreases |batch|
  {
    if batch == [] then
      assert t + batch == t;
      Success(t)
    else
      match RowViolation(t, batch[0])
      case Some(v) =>
        assert !ValidTable(t + batch) by {
          var tb := t + batch;
          assert tb[|t|] == batch[0];
          if !RowOk(batch[0]) {
            assert !RowOk(tb[|t|]);
          } else {
            var i :| 0 <= i < |t| && Key(t[i]) == Key(batch[0]);
            assert Key(tb[i]) == Key(tb[|t|]);
          }
        }
        Failure(v)
      case None =>
        var t' := t + [batch[0]];
        assert t' + batch[1..] == t + batch;
        assert ValidTable(t) ==> ValidTable(t') by {
          if ValidTable(t) {
            forall i, j | 0 <= i < j < |t'|
              ensures Key(t'[i]) != Key(t'[j])
            {
              if j == |t| {
                assert t'[j] == batch[0];
              }
            }
          }
        }
        assert ValidTable(t + batch) ==> ValidTable(t') by {
          if ValidTable(t + batch) {
            assert forall i :: 0 <= i < |t'| ==> t'[i] == (t + batch)[i];
          }
        }
        InsertAll(t', batch[1..])
  }
}
