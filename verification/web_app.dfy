/** The page handlers of main.py: the redirect that falls back to a fixed
    company, and the gauge score computed from the detail the company
    service returns. */
module WebApp {
  import opened Wrappers
  import opened PyText
  import opened PyValue
  import opened DashboardFlat
  import opened CodeResolver
  import opened CompanyService
  import opened ChartScript

  /** The company shown when nothing else can be. */
  const DefaultCode: string := "005930"

  /** `company_redirect`: the resolved code, or the default company when
      resolution raises. */
  function CompanyRedirect(table: seq<Row>, corpId: string): (code: string)
    ensures Resolve(table, corpId).Failure? ==> code == DefaultCode
    ensures Resolve(table, corpId).Success? ==> code == Resolve(table, corpId).value
  {
    match Resolve(table, corpId)
    case Success(c) => c
    case Failure(_) => DefaultCode
  }

  /** Every redirect lands on a code the table holds, on six digits the
      user typed, or on the default company; empty input always lands on
      the default. */
  lemma RedirectTarget(table: seq<Row>, corpId: string)
    ensures var code := CompanyRedirect(table, corpId);
      CodeExists(table, code) || (|code| == 6 && AllDigits(code)) || code == DefaultCode
    ensures corpId == [] ==> CompanyRedirect(table, corpId) == DefaultCode
  {
    if Resolve(table, corpId).Success? {
      ResolvedShape(table, corpId);
    }
  }

  /** `v.strip()` with one trailing '%' removed. */
  function ScoreText(s: string): (t: string)
    ensures |t| <= |s|
  {
    var u := Strip(s);
    if u != [] && u[|u| - 1] == '%' then u[..|u| - 1] else u
  }

  /** The number `to_score_0_100` reads: strings lose their blanks and one
      trailing '%'; `None` stands for `None` and for a failing `float()`. */
  function ScoreInput(v: Value): Option<Double> {
    match v
    case Nil => None
    case Str(s) => ParseFloat(ScoreText(s))
    case _ => ToFloat(v)
  }

  /** The scaling and clamping of `to_score_0_100` on a parsed number. */
  function ScoreOf(x: Double): (r: real)
    ensures 0.0 <= r <= 100.0
    ensures x.Finite? && 0.0 <= x.x <= 1.0 ==> r == x.x * 100.0
    ensures x.Finite? && 1.0 < x.x <= 100.0 ==> r == x.x
  {
    if AtLeast(x, Finite(0.0)) && AtMost(x, Finite(1.0)) then Clamp100(Finite(x.x * 100.0))
    else Clamp100(x)
  }

  /** `to_score_0_100(v)`: always in [0, 100]; 0 for `None` and for text
      that does not parse. */
  function ToScore(v: Value): (r: real)
    ensures 0.0 <= r <= 100.0
    ensures ScoreInput(v).None? ==> r == 0.0
    ensures ScoreInput(v).Some? ==> r == ScoreOf(ScoreInput(v).value)
  {
    match ScoreInput(v)
    case None => 0.0
    case Some(x) => ScoreOf(x)
  }

  /** The text of a percentage scores as the percentage, with or without
      a trailing '%': `"37"` and `"37%"` both give 37 ... */
  lemma ScoreForms(t: string, x: real)
    requires t != [] && !IsSpace(t[0]) && !IsSpace(t[|t| - 1]) && t[|t| - 1] != '%'
    requires ParseFloat(t) == Some(Finite(x))
    requires 1.0 < x <= 100.0
    ensures ToScore(Str(t)) == x
    ensures ToScore(Str(t + "%")) == x
  {
    ScoreTextDropsPercent(t);
    ScoreOfText(t, t, x);
    ScoreOfText(t + "%", t, x);
  }

  /** Text that reads as a percentage above 1 scores as that percentage. */
  lemma ScoreOfText(s: string, t: string, x: real)
    requires ScoreText(s) == t && ParseFloat(t) == Some(Finite(x))
    requires 1.0 < x <= 100.0
    ensures ToScore(Str(s)) == x
  {
    assert ScoreInput(Str(s)) == Some(Finite(x));
  }

  /** ... and the number itself, or its fraction of 100, scores the same. */
  lemma ScoreOfFraction(x: real)
    requires 1.0 < x <= 100.0
    ensures ToScore(Float(Finite(x))) == x
    ensures ToScore(Float(Finite(x / 100.0))) == x
  {
    var y := x / 100.0;
    assert y * 100.0 == x;
  }

  lemma ScoreTextDropsPercent(t: string)
    requires t != [] && !IsSpace(t[0]) && !IsSpace(t[|t| - 1]) && t[|t| - 1] != '%'
    ensures ScoreText(t) == t && ScoreText(t + "%") == t
  {
    StripNoSpace(t);
    var u := t + "%";
    assert u[0] == t[0] && u[|u| - 1] == '%';
    StripNoSpace(u);
    assert u[..|u| - 1] == t;
  }

  /** NaN and the infinities clamp: NaN and +inf give 100, -inf gives 0. */
  lemma ScoreOfSpecials()
    ensures ToScore(Float(NaN)) == 100.0
    ensures ToScore(Float(PosInf)) == 100.0
    ensures ToScore(Float(NegInf)) == 0.0
  {
  }

  /** The first truthy value, or `0`: Python's `a or b or ... or 0`. */
  function FirstTruthy(vs: seq<Value>): (r: Value)
    ensures (exists i :: 0 <= i < |vs| && Truthy(vs[i])) ==>
              exists i :: 0 <= i < |vs| && Truthy(vs[i]) && r == vs[i]
                && forall j :: 0 <= j < i ==> !Truthy(vs[j])
    ensures (forall i :: 0 <= i < |vs| ==> !Truthy(vs[i])) ==> r == Int(0)
  {
    if vs == [] then Int(0)
    else if Truthy(vs[0]) then vs[0]
    else
      var r := FirstTruthy(vs[1..]);
      assert forall i :: 1 <= i < |vs| ==> vs[i] == vs[1..][i - 1];
      if exists i :: 0 <= i < |vs| && Truthy(vs[i]) then
        var i :| 0 <= i < |vs| && Truthy(vs[i]);
        assert Truthy(vs[1..][i - 1]);
        var k :| 0 <= k < |vs[1..]| && Truthy(vs[1..][k]) && r == vs[1..][k]
                 && forall j :: 0 <= j < k ==> !Truthy(vs[1..][j]);
        assert Truthy(vs[k + 1]) && r == vs[k + 1];
        r
      else r
  }

  /** The insolvency card's `percent` as the page holds it: the
      probability as a percentage followed by '%' (its one-decimal text
      is not modelled), or "-" when the detail could not be loaded. */
  datatype PercentCell = Shown(percent: real) | Dash

  /** The percent cell of the page for `corpId`. */
  function PercentCellOf(table: seq<Row>, corpId: string): (c: PercentCell)
    ensures c.Shown? <==> Resolve(table, corpId).Success? && GetCompanyDetail(table, Resolve(table, corpId).value).Success?
    ensures c.Shown? ==> c.percent == GetCompanyDetail(table, Resolve(table, corpId).value).value.prob * 100.0
  {
    match Resolve(table, corpId)
    case Failure(_) => Dash
    case Success(code) =>
      match GetCompanyDetail(table, code)
      case Failure(_) => Dash
      case Success(d) => Shown(d.percent)
  }

  /** `raw_percent`: the page's `percent`, else `default_prob`, else
      `default_prob_score`, else 0. Neither key exists on the page, and the
      percent text is never empty, so the percent is always what is read. */
  function RawPercent(percent: Value, defaultProb: Value, defaultProbScore: Value): (r: Value)
    ensures Truthy(percent) ==> r == percent
  {
    FirstTruthy([percent, defaultProb, defaultProbScore])
  }

  /** The number `to_score_0_100` reads back from the percent cell: the
      shown percentage, or nothing for "-" (`float("-")` raises). */
  function CellNumber(c: PercentCell): Option<Double> {
    match c
    case Shown(p) => Some(Finite(p))
    case Dash => None
  }

  /** The gauge score as main.py computes it: the percent text goes
      through `to_score_0_100`, which rescales every value in [0, 1] —
      although the text is already a percentage. */
  function RiskScoreAsWritten(table: seq<Row>, corpId: string): (r: real)
    ensures 0.0 <= r <= 100.0
    ensures PercentCellOf(table, corpId).Dash? ==> r == 0.0
    ensures PercentCellOf(table, corpId).Shown? ==>
              var p := PercentCellOf(table, corpId).percent;
              && (0.0 <= p <= 1.0 ==> r == p * 100.0)
              && (1.0 < p <= 100.0 ==> r == p)
              && (p > 100.0 ==> r == 100.0)
              && (p < 0.0 ==> r == 0.0)
  {
    match CellNumber(PercentCellOf(table, corpId))
    case None => 0.0
    case Some(x) => ScoreOf(x)
  }

  /** A probability up to 1% is shown as a percentage of at most 1, and
      the gauge then multiplies it by 100 once more: 0.5% reads as 50. */
  lemma SmallProbabilityInflated(table: seq<Row>, corpId: string)
    requires PercentCellOf(table, corpId).Shown?
    requires var p := PercentCellOf(table, corpId).percent; 0.0 < p <= 1.0
    ensures RiskScoreAsWritten(table, corpId) == PercentCellOf(table, corpId).percent * 100.0
    ensures RiskScoreAsWritten(table, corpId) != PercentCellOf(table, corpId).percent
  {
  }

  /** The same inflation on the concrete value: a probability of 0.005
      shows "0.5%" on the card and a gauge score of 50. */
  lemma HalfPercentReadsAsFifty()
    ensures ScoreOf(Finite(0.005 * 100.0)) == 50.0
  {
  }

  /** The gauge score the page means: the card's percentage, clamped to
      [0, 100]; 0 when the card shows "-". */
  function RiskScore(table: seq<Row>, corpId: string): (r: real)
    ensures 0.0 <= r <= 100.0
    ensures PercentCellOf(table, corpId).Dash? ==> r == 0.0
    ensures PercentCellOf(table, corpId).Shown? ==>
              var p := PercentCellOf(table, corpId).percent;
              && (0.0 <= p <= 100.0 ==> r == p)
              && (p > 100.0 ==> r == 100.0)
              && (p < 0.0 ==> r == 0.0)
  {
    match PercentCellOf(table, corpId)
    case Dash => 0.0
    case Shown(p) => Clamp100(Finite(p))
  }

  /** The corrected score is the probability in percent, on every scale,
      and agrees with the as-written one from 1% upwards. */
  lemma RiskScoreIsPercent(table: seq<Row>, corpId: string)
    requires PercentCellOf(table, corpId).Shown?
    requires var p := GetCompanyDetail(table, Resolve(table, corpId).value).value.prob; 0.0 <= p <= 1.0
    ensures RiskScore(table, corpId) == GetCompanyDetail(table, Resolve(table, corpId).value).value.prob * 100.0
    ensures PercentCellOf(table, corpId).percent > 1.0 ==> RiskScore(table, corpId) == RiskScoreAsWritten(table, corpId)
  {
  }

  /** The gauge status the page means to show: the band of the corrected
      score `RiskScore`, which is the band of the card's percentage itself
      (the page as written feeds `RiskScoreAsWritten` to the gauge). */
  function IntendedPageGauge(table: seq<Row>, corpId: string): (g: GaugeLevel)
    ensures PercentCellOf(table, corpId).Dash? ==> g == GaugeSafe
    ensures PercentCellOf(table, corpId).Shown? ==>
              var p := PercentCellOf(table, corpId).percent;
              && (g == GaugeDanger <==> p >= 66.67)
              && (g == GaugeWarning <==> 33.33 <= p < 66.67)
              && (g == GaugeSafe <==> p < 33.33)
  {
    GaugeStatus(Finite(RiskScore(table, corpId))).value
  }

  /** The gauge and the card classify the same probability on different
      cut-offs (66.67/33.33 against 0.6/0.4): at 62% the card says danger
      and the gauge says caution. */
  lemma GaugeAndCardDisagree(table: seq<Row>, corpId: string)
    requires PercentCellOf(table, corpId).Shown?
    requires GetCompanyDetail(table, Resolve(table, corpId).value).value.prob == 0.62
    ensures GetCompanyDetail(table, Resolve(table, corpId).value).value.status == Danger
    ensures IntendedPageGauge(table, corpId) == GaugeWarning
  {
  }

  /** Where both scales are read consistently, they agree at the extremes:
      a card in danger from 66.67% up is a gauge in danger, and a good card
      is never a gauge in danger. */
  lemma GaugeAndCardAgreeAtExtremes(table: seq<Row>, corpId: string)
    requires PercentCellOf(table, corpId).Shown?
    requires var p := GetCompanyDetail(table, Resolve(table, corpId).value).value.prob; 0.0 <= p <= 1.0
    ensures var d := GetCompanyDetail(table, Resolve(table, corpId).value).value;
      (d.prob >= 0.6667 ==> d.status == Danger && IntendedPageGauge(table, corpId) == GaugeDanger)
      && (d.status == Good ==> IntendedPageGauge(table, corpId) != GaugeDanger)
  {
    RiskScoreIsPercent(table, corpId);
    var d := GetCompanyDetail(table, Resolve(table, corpId).value).value;
    assert IntendedPageGauge(table, corpId) == GaugeStatus(Finite(d.prob * 100.0)).value;
    ScalesAgreeAtExtremes(d.prob);
  }

  /** The two cut-offs on one probability in [0, 1]. */
  lemma ScalesAgreeAtExtremes(p: real)
    requires 0.0 <= p <= 1.0
    ensures p >= 0.6667 ==> StatusFromProb(Some(p)) == Danger && GaugeStatus(Finite(p * 100.0)).value == GaugeDanger
    ensures StatusFromProb(Some(p)) == Good ==> GaugeStatus(Finite(p * 100.0)).value != GaugeDanger
  {
  }
}
