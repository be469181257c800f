/** The company dashboard's data service (services/company_service.py):
    the status classifier, the Beneish donut fill, the company detail with
    its latest row, the sector series and the industry benchmark. Each SQL
    query is written as a function over the table. */
module CompanyService {
  import opened Wrappers
  import opened PyText
  import opened Sequences
  import opened DashboardFlat

  // ---------------------------------------------------------------------
  // Threshold classifiers
  // ---------------------------------------------------------------------

  /** The Beneish M-score above which earnings manipulation is suspected. */
  const Threshold: real := -2.22

  /** The default-probability status shown on the insolvency card. */
  datatype Status = NoInfo | Danger | Caution | Good

  function StatusText(s: Status): string {
    match s
    case NoInfo => "정보없음"
    case Danger => "위험"
    case Caution => "경고"
    case Good => "양호"
  }

  /** How alarming a status is; `NoInfo` ranks below every band. */
  function Severity(s: Status): int {
    match s
    case NoInfo => -1
    case Good => 0
    case Caution => 1
    case Danger => 2
  }

  /** `_status_from_prob`: no probability gives `NoInfo`; otherwise the
      bands are [0.6, inf) danger, [0.4, 0.6) caution and below 0.4 good. */
  function StatusFromProb(p: Option<real>): (s: Status)
    ensures s == NoInfo <==> p.None?
    ensures p.Some? ==> (s == Danger <==> p.value >= 0.6)
    ensures p.Some? ==> (s == Caution <==> 0.4 <= p.value < 0.6)
    ensures p.Some? ==> (s == Good <==> p.value < 0.4)
  {
    match p
    case None => NoInfo
    case Some(x) =>
      if x >= 0.6 then Danger
      else if x >= 0.4 then Caution
      else Good
  }

  /** A higher probability never gives a milder status. */
  lemma StatusMonotone(p: real, q: real)
    requires p <= q
    ensures Severity(StatusFromProb(Some(p))) <= Severity(StatusFromProb(Some(q)))
  {
  }

  /** The donut fill: 100 (suspected) when the M-score is present and at
      least the threshold, 0 otherwise. */
  function ScoreFill(score: Option<real>): (r: int)
    ensures r == 0 || r == 100
    ensures r == 100 <==> score.Some? && score.value >= Threshold
  {
    if score.Some? && score.value >= Threshold then 100 else 0
  }

  /** A larger M-score never empties the donut. */
  lemma ScoreFillMonotone(a: real, b: real)
    requires a <= b
    ensures ScoreFill(Some(a)) <= ScoreFill(Some(b))
  {
  }

  // ---------------------------------------------------------------------
  // SQL building blocks
  // ---------------------------------------------------------------------

  /** Python's `float(x or 0)` and `_f` on a NUMERIC column: NULL reads 0. */
  function OrZero(v: Option<real>): real {
    v.GetOr(0.0)
  }

  /** The non-NULL values, in order. */
  function Present(vs: seq<Option<real>>): (xs: seq<real>)
    ensures |xs| <= |vs|
    ensures xs == [] <==> forall i :: 0 <= i < |vs| ==> vs[i].None?
    ensures forall k :: 0 <= k < |xs| ==> Some(xs[k]) in vs
  {
    if vs == [] then []
    else
      var rest := Present(vs[1..]);
      assert forall i :: 1 <= i < |vs| ==> vs[i] == vs[1..][i - 1];
      if vs[0].Some? then [vs[0].value] + rest else rest
  }

  /** SQL `avg`: the mean of the non-NULL values, NULL when there are none. */
  function SqlAvg(vs: seq<Option<real>>): (a: Option<real>)
    ensures a.None? <==> forall i :: 0 <= i < |vs| ==> vs[i].None?
  {
    Mean(Present(vs))
  }

  /** The average lies within any bounds of the values averaged. */
  lemma SqlAvgBounds(vs: seq<Option<real>>, lo: real, hi: real)
    requires forall i :: 0 <= i < |vs| && vs[i].Some? ==> lo <= vs[i].value <= hi
    ensures SqlAvg(vs).Some? ==> lo <= SqlAvg(vs).value <= hi
  {
    var xs := Present(vs);
    if xs != [] {
      forall k | 0 <= k < |xs|
        ensures lo <= xs[k] <= hi
      {
        assert Some(xs[k]) in vs;
      }
      MeanBounds(xs, lo, hi);
    }
  }

  // ---------------------------------------------------------------------
  // The company's rows and its latest row
  // ---------------------------------------------------------------------

  /** `filter(stock_code == code).order_by(year.asc())`. */
  function RowsByYear(table: seq<Row>, code: string): (rows: seq<Row>)
    ensures forall k :: 0 <= k < |rows| ==> rows[k] in table && rows[k].stockCode == code
    ensures forall i :: 0 <= i < |table| && table[i].stockCode == code ==> table[i] in rows
    ensures forall i, j :: 0 <= i < j < |rows| ==> rows[i].year <= rows[j].year
  {
    var isMine := (r: Row) => r.stockCode == code;
    var mine := Filter(table, isMine);
    var rows := ByYear(mine);
    forall k | 0 <= k < |rows|
      ensures rows[k] in mine
    {
      PermutationIn(rows, mine, rows[k]);
    }
    forall i | 0 <= i < |table| && table[i].stockCode == code
      ensures table[i] in rows
    {
      FilterKeeps(table, isMine, table[i]);
      PermutationIn(mine, rows, table[i]);
    }
    rows
  }

  /** `ORDER BY year`: the same rows, years ascending. */
  function ByYear(rows: seq<Row>): (r: seq<Row>)
    ensures multiset(r) == multiset(rows)
    ensures forall i, j :: 0 <= i < j < |r| ==> r[i].year <= r[j].year
  {
    var key := (row: Row) => (-row.year) as real;
    var r := SortDesc(rows, key);
    assert forall i, j :: 0 <= i < j < |r| ==> key(r[i]) >= key(r[j]);
    r
  }

  /** The company's latest row: `rows[-1]` of the year-ascending rows. */
  function Latest(table: seq<Row>, code: string): (l: Option<Row>)
    ensures l.None? <==> forall i :: 0 <= i < |table| ==> table[i].stockCode != code
    ensures l.Some? ==> l.value in table && l.value.stockCode == code
    ensures l.Some? ==> forall i :: 0 <= i < |table| && table[i].stockCode == code ==> table[i].year <= l.value.year
  {
    var rows := RowsByYear(table, code);
    if rows == [] then None
    else
      var l := rows[|rows| - 1];
      LastIsLatest(table, code, rows);
      Some(l)
  }

  /** The last of the company's rows in year order has the largest year. */
  lemma LastIsLatest(table: seq<Row>, code: string, rows: seq<Row>)
    requires rows != []
    requires forall i :: 0 <= i < |table| && table[i].stockCode == code ==> table[i] in rows
    requires forall i, j :: 0 <= i < j < |rows| ==> rows[i].year <= rows[j].year
    ensures forall i :: 0 <= i < |table| && table[i].stockCode == code ==> table[i].year <= rows[|rows| - 1].year
  {
    forall i | 0 <= i < |table| && table[i].stockCode == code
      ensures table[i].year <= rows[|rows| - 1].year
    {
      var k :| 0 <= k < |rows| && rows[k] == table[i];
    }
  }

  /** Under the primary key the latest row is the only row of its year. */
  lemma LatestUnique(table: seq<Row>, code: string, i: nat)
    requires KeysUnique(table) && Latest(table, code).Some?
    requires i < |table| && table[i].stockCode == code && table[i].year == Latest(table, code).value.year
    ensures table[i] == Latest(table, code).value
  {
    var l := Latest(table, code).value;
    var j :| 0 <= j < |table| && table[j] == l;
    assert Key(table[i]) == Key(table[j]);
  }

  // ---------------------------------------------------------------------
  // Sector series
  // ---------------------------------------------------------------------

  /** One `GROUP BY industry_name` group and its average default probability. */
  datatype Group = Group(industry: Option<string>, avg: Option<real>)

  /** An item of the sector series: its `"label"` key (the industry name
      or "기타") and its `"value"`. */
  datatype SectorEntry = SectorEntry(labelText: string, value: real)

  /** The average default probability of one industry among `rows`; SQL
      groups NULL names together. */
  function IndustryAvg(rows: seq<Row>, industry: Option<string>): Option<real> {
    SqlAvg(IndustryProbs(rows, industry))
  }

  /** The default probabilities of the rows of one industry, in order. */
  function IndustryProbs(rows: seq<Row>, industry: Option<string>): (vs: seq<Option<real>>)
    ensures |vs| <= |rows|
  {
    if rows == [] then []
    else
      var rest := IndustryProbs(rows[1..], industry);
      if rows[0].industryName == industry then [rows[0].metrics.defaultProb] + rest else rest
  }

  /** Bounds on the stored probabilities carry over to one industry's. */
  lemma {:induction false} IndustryProbsBounds(rows: seq<Row>, industry: Option<string>, lo: real, hi: real)
    requires forall i :: 0 <= i < |rows| && rows[i].metrics.defaultProb.Some? ==>
               lo <= rows[i].metrics.defaultProb.value <= hi
    ensures forall j :: 0 <= j < |IndustryProbs(rows, industry)| && IndustryProbs(rows, industry)[j].Some? ==>
              lo <= IndustryProbs(rows, industry)[j].value <= hi
  {
    if rows != [] {
      var tail := rows[1..];
      assert forall i :: 0 <= i < |tail| ==> tail[i] == rows[i + 1];
      IndustryProbsBounds(tail, industry, lo, hi);
      var rest := IndustryProbs(tail, industry);
      var vs := IndustryProbs(rows, industry);
      forall j | 0 <= j < |vs| && vs[j].Some?
        ensures lo <= vs[j].value <= hi
      {
        if rows[0].industryName == industry {
          assert vs == [rows[0].metrics.defaultProb] + rest;
          if j > 0 {
            assert vs[j] == rest[j - 1];
          }
        } else {
          assert vs[j] == rest[j];
        }
      }
    }
  }

  /** The industry name of each row, in order. */
  function IndustryNames(rows: seq<Row>): (ns: seq<Option<string>>)
    ensures |ns| == |rows| && forall i :: 0 <= i < |rows| ==> ns[i] == rows[i].industryName
  {
    seq(|rows|, i requires 0 <= i < |rows| => rows[i].industryName)
  }

  /** The group of each name, averaged over `rows`. */
  function GroupsOf(rows: seq<Row>, names: seq<Option<string>>): (gs: seq<Group>)
    ensures |gs| == |names|
    ensures forall k :: 0 <= k < |names| ==> gs[k].industry == names[k]
    ensures forall k {:trigger gs[k].avg} :: 0 <= k < |names| ==> gs[k].avg == IndustryAvg(rows, names[k])
  {
    seq(|names|, k requires 0 <= k < |names| => Group(names[k], IndustryAvg(rows, names[k])))
  }

  /** Grouping by the distinct industry names of `rows`: every row's name
      has a group, every group's name occurs among the rows, and no name
      has two groups. */
  lemma GroupsOfDistinctNames(rows: seq<Row>, gs: seq<Group>)
    requires gs == GroupsOf(rows, DedupFirst(IndustryNames(rows)))
    ensures forall i :: 0 <= i < |rows| ==> exists k :: 0 <= k < |gs| && gs[k].industry == rows[i].industryName
    ensures forall k :: 0 <= k < |gs| ==> gs[k].industry in IndustryNames(rows)
    ensures forall k, l :: 0 <= k < l < |gs| ==> gs[k].industry != gs[l].industry
  {
    var names := DedupFirst(IndustryNames(rows));
    forall i | 0 <= i < |rows|
      ensures exists k :: 0 <= k < |gs| && gs[k].industry == rows[i].industryName
    {
      assert IndustryNames(rows)[i] in names;
      var k :| 0 <= k < |names| && names[k] == rows[i].industryName;
      assert gs[k].industry == names[k];
    }
    forall k | 0 <= k < |gs|
      ensures gs[k].industry in IndustryNames(rows)
    {
      DedupFirstFrom(IndustryNames(rows), names[k]);
    }
  }

  /** One group per distinct industry name among `rows`. */
  function Groups(rows: seq<Row>): (gs: seq<Group>)
    ensures forall k {:trigger gs[k].avg} :: 0 <= k < |gs| ==> gs[k].avg == IndustryAvg(rows, gs[k].industry)
    ensures forall i :: 0 <= i < |rows| ==> exists k :: 0 <= k < |gs| && gs[k].industry == rows[i].industryName
    ensures forall k :: 0 <= k < |gs| ==> gs[k].industry in IndustryNames(rows)
    ensures forall k, l :: 0 <= k < l < |gs| ==> gs[k].industry != gs[l].industry
  {
    var gs := GroupsOf(rows, DedupFirst(IndustryNames(rows)));
    GroupsOfDistinctNames(rows, gs);
    gs
  }

  /** `a` may come before `b` under `ORDER BY avg DESC`, where PostgreSQL
      puts NULL first. */
  predicate GroupBefore(a: Group, b: Group) {
    a.avg.None? || (b.avg.Some? && a.avg.value >= b.avg.value)
  }

  predicate NullAvg(g: Group) {
    g.avg.None?
  }

  predicate HasAvg(g: Group) {
    g.avg.Some?
  }

  function AvgKey(g: Group): real {
    g.avg.GetOr(0.0)
  }

  /** NULL-average groups followed by a descending run of valued groups are
      in query order. */
  lemma NullsThenDescending(nulls: seq<Group>, sorted: seq<Group>)
    requires forall k :: 0 <= k < |nulls| ==> nulls[k].avg.None?
    requires forall k :: 0 <= k < |sorted| ==> sorted[k].avg.Some?
    requires SortedDesc(sorted, AvgKey)
    ensures forall i, j :: 0 <= i < j < |nulls + sorted| ==> GroupBefore((nulls + sorted)[i], (nulls + sorted)[j])
  {
    var o := nulls + sorted;
    forall i, j | 0 <= i < j < |o|
      ensures GroupBefore(o[i], o[j])
    {
      if i >= |nulls| {
        assert o[i] == sorted[i - |nulls|] && o[j] == sorted[j - |nulls|];
        assert AvgKey(o[i]) >= AvgKey(o[j]);
      } else {
        assert o[i] == nulls[i];
      }
    }
  }

  /** The groups ordered by average, descending, NULL averages first. */
  function OrderByAvgDesc(gs: seq<Group>): (o: seq<Group>)
    ensures multiset(o) == multiset(gs)
    ensures forall i, j :: 0 <= i < j < |o| ==> GroupBefore(o[i], o[j])
  {
    var nulls := Filter(gs, NullAvg);
    var valued := Filter(gs, HasAvg);
    var sorted := SortDesc(valued, AvgKey);
    FilterSplit(gs, NullAvg, HasAvg);
    assert forall k :: 0 <= k < |sorted| ==> sorted[k].avg.Some? by {
      forall k | 0 <= k < |sorted|
        ensures sorted[k].avg.Some?
      {
        PermutationIn(sorted, valued, sorted[k]);
      }
    }
    NullsThenDescending(nulls, sorted);
    nulls + sorted
  }

  /** A group's bar: a NULL or empty industry name reads "기타" and a NULL
      average reads 0. */
  function Entry(g: Group): SectorEntry {
    var labelText := if g.industry.None? || g.industry.value == "" then "기타" else g.industry.value;
    SectorEntry(labelText, OrZero(g.avg))
  }

  /** `filter(year == y)`. */
  function YearRows(table: seq<Row>, year: int): seq<Row> {
    Filter(table, (r: Row) => r.year == year)
  }

  /** The groups of `year` in query order. */
  function SectorOrder(table: seq<Row>, year: int): seq<Group> {
    OrderByAvgDesc(Groups(YearRows(table, year)))
  }

  /** The sector chart for `year`: average default probability per industry
      over that year's rows, highest first, at most six bars. */
  function SectorSeries(table: seq<Row>, year: int): (series: seq<SectorEntry>)
    ensures |series| == Min(6, |SectorOrder(table, year)|)
    ensures forall k :: 0 <= k < |series| ==> series[k] == Entry(SectorOrder(table, year)[k])
  {
    var bars := Entries(SectorOrder(table, year));
    var series := Take(bars, 6);
    assert forall k :: 0 <= k < |series| ==> series[k] == bars[k];
    series
  }

  /** The bar of each group, in order. */
  function Entries(gs: seq<Group>): (es: seq<SectorEntry>)
    ensures |es| == |gs| && forall k :: 0 <= k < |gs| ==> es[k] == Entry(gs[k])
  {
    seq(|gs|, k requires 0 <= k < |gs| => Entry(gs[k]))
  }

  /** The six bars shown are the six largest averages: a group left out has
      a non-NULL average no larger than any shown non-NULL average. */
  lemma SectorSeriesIsTop(table: seq<Row>, year: int, g: Group, k: nat)
    requires g in Groups(YearRows(table, year)) && g.avg.Some?
    requires g !in SectorOrder(table, year)[..Min(6, |SectorOrder(table, year)|)]
    requires k < |SectorSeries(table, year)|
    ensures SectorOrder(table, year)[k].avg.None? || SectorOrder(table, year)[k].avg.value >= g.avg.value
  {
    var gs := Groups(YearRows(table, year));
    var o := OrderByAvgDesc(gs);
    PermutationIn(gs, o, g);
    OrderedPrefixIsTop(o, g, k, Min(6, |o|));
  }

  /** In a sequence ordered by `GroupBefore`, every element of a prefix
      comes before every element outside it. */
  lemma OrderedPrefixIsTop(o: seq<Group>, g: Group, k: nat, m: nat)
    requires forall i, j :: 0 <= i < j < |o| ==> GroupBefore(o[i], o[j])
    requires k < m <= |o| && g in o && g !in o[..m]
    ensures GroupBefore(o[k], g)
  {
    var j :| 0 <= j < |o| && o[j] == g;
    assert m <= j;
  }

  /** A group's average lies in [0, 1] when the probabilities do. */
  lemma GroupAvgInUnitRange(rows: seq<Row>, industry: Option<string>)
    requires forall i :: 0 <= i < |rows| && rows[i].metrics.defaultProb.Some? ==>
               0.0 <= rows[i].metrics.defaultProb.value <= 1.0
    ensures IndustryAvg(rows, industry).Some? ==> 0.0 <= IndustryAvg(rows, industry).value <= 1.0
  {
    IndustryProbsBounds(rows, industry, 0.0, 1.0);
    SqlAvgBounds(IndustryProbs(rows, industry), 0.0, 1.0);
  }

  /** When every stored probability lies in [0, 1], so does every bar. */
  lemma SectorValuesInUnitRange(table: seq<Row>, year: int)
    requires forall i :: 0 <= i < |table| && table[i].metrics.defaultProb.Some? ==>
               0.0 <= table[i].metrics.defaultProb.value <= 1.0
    ensures forall k :: 0 <= k < |SectorSeries(table, year)| ==>
              0.0 <= SectorSeries(table, year)[k].value <= 1.0
  {
    var rows := YearRows(table, year);
    var gs := Groups(rows);
    var o := SectorOrder(table, year);
    forall i | 0 <= i < |rows| && rows[i].metrics.defaultProb.Some?
      ensures 0.0 <= rows[i].metrics.defaultProb.value <= 1.0
    {
      assert rows[i] in table;
    }
    forall k | 0 <= k < |SectorSeries(table, year)|
      ensures 0.0 <= SectorSeries(table, year)[k].value <= 1.0
    {
      PermutationIn(o, gs, o[k]);
      GroupAvgInUnitRange(rows, o[k].industry);
    }
  }

  // ---------------------------------------------------------------------
  // Benchmark
  // ---------------------------------------------------------------------

  datatype Direction = HigherBetter | LowerBetter

  /** One metric of the benchmark: the company's value against the average
      of its industry in the same year. */
  datatype Comparison = Comparison(name: string, field: MetricField, company: real, industry: real, direction: Direction)

  datatype Category = Category(name: string, signal: string, metrics: seq<Comparison>)

  datatype Benchmark = Benchmark(categories: seq<Category>, tolerance: real)

  /** Differences within 5% count as a tie. */
  const Tolerance: real := 0.05

  /** The same-year, same-industry rows the averages run over. SQLAlchemy
      compiles a comparison with `None` to `IS NULL`, so a NULL industry
      name selects the year's NULL-industry rows: the filter is plain
      equality of the nullable values. */
  function Peers(table: seq<Row>, latest: Row): seq<Row> {
    Filter(table, (r: Row) => r.year == latest.year && r.industryName == latest.industryName)
  }

  function PeerAvg(table: seq<Row>, latest: Row, f: MetricField): Option<real> {
    var peers := Peers(table, latest);
    SqlAvg(seq(|peers|, k requires 0 <= k < |peers| => Field(peers[k].metrics, f)))
  }

  /** One metric of the layout: its label, column and direction. */
  datatype MetricSpec = MetricSpec(name: string, field: MetricField, direction: Direction)

  datatype CategorySpec = CategorySpec(name: string, signal: string, metrics: seq<MetricSpec>)

  /** The benchmark's four categories and their metrics. */
  const Layout: seq<CategorySpec> := [
    CategorySpec("수익성", "경쟁력 약화", [
      MetricSpec("영업이익률(%)", Opm, HigherBetter),
      MetricSpec("순이익률(%)", Npm, HigherBetter),
      MetricSpec("ROE(%)", Roe, HigherBetter),
      MetricSpec("ROA(%)", Roa, HigherBetter)]),
    CategorySpec("안정성", "부실 위험", [
      MetricSpec("부채비율(%)", DebtRatio, LowerBetter),
      MetricSpec("유동비율(%)", CurrentRatio, HigherBetter),
      MetricSpec("이자보상배율", Icr, HigherBetter)]),
    CategorySpec("성장성", "경쟁력 하락", [
      MetricSpec("매출액증가율(%)", SalesGrowth, HigherBetter),
      MetricSpec("영업이익증가율(%)", OpIncomeGrowth, HigherBetter)]),
    CategorySpec("효율성", "운영 비효율", [
      MetricSpec("총자산회전율", AssetTurnover, HigherBetter),
      MetricSpec("매출채권회전율", ArTurnover, HigherBetter)])]

  /** The layout has categories of 4, 3, 2 and 2 metrics; only the debt
      ratio is better when lower; and no column is compared twice. */
  lemma LayoutShape()
    ensures |Layout| == 4
    ensures |Layout[0].metrics| == 4 && |Layout[1].metrics| == 3
    ensures |Layout[2].metrics| == 2 && |Layout[3].metrics| == 2
    ensures forall c, k :: 0 <= c < |Layout| && 0 <= k < |Layout[c].metrics| ==>
              (Layout[c].metrics[k].direction == LowerBetter <==> Layout[c].metrics[k].field == DebtRatio)
    ensures forall c, k, c', k' ::
              (0 <= c < |Layout| && 0 <= k < |Layout[c].metrics| && 0 <= c' < |Layout| && 0 <= k' < |Layout[c'].metrics|
               && (c, k) != (c', k')) ==> Layout[c].metrics[k].field != Layout[c'].metrics[k'].field
  {
  }

  /** `_metric`: both values through `_f`. */
  function Compare(table: seq<Row>, latest: Row, m: MetricSpec): (c: Comparison)
    ensures c.name == m.name && c.field == m.field && c.direction == m.direction
    ensures c.company == OrZero(Field(latest.metrics, m.field))
    ensures c.industry == OrZero(PeerAvg(table, latest, m.field))
  {
    Comparison(m.name, m.field, OrZero(Field(latest.metrics, m.field)), OrZero(PeerAvg(table, latest, m.field)), m.direction)
  }

  function CategoryOf(table: seq<Row>, latest: Row, spec: CategorySpec): (c: Category)
    ensures |c.metrics| == |spec.metrics|
    ensures forall k :: 0 <= k < |c.metrics| ==> c.metrics[k] == Compare(table, latest, spec.metrics[k])
  {
    Category(spec.name, spec.signal,
      seq(|spec.metrics|, k requires 0 <= k < |spec.metrics| => Compare(table, latest, spec.metrics[k])))
  }

  /** `build_benchmark`: no categories for an unknown code; otherwise the
      layout's categories, each metric comparing the latest row with the
      same-year industry average, where a NULL on either side reads 0. */
  function BuildBenchmark(table: seq<Row>, code: string): (b: Benchmark)
    ensures b.tolerance == Tolerance
    ensures b.categories == [] <==> Latest(table, code).None?
    ensures b.categories != [] ==> |b.categories| == |Layout|
    ensures forall c :: 0 <= c < |b.categories| ==> |b.categories[c].metrics| == |Layout[c].metrics|
    ensures forall c, k :: 0 <= c < |b.categories| && 0 <= k < |b.categories[c].metrics| ==>
              var m := b.categories[c].metrics[k];
              && m.field == Layout[c].metrics[k].field
              && m.direction == Layout[c].metrics[k].direction
              && m.company == OrZero(Field(Latest(table, code).value.metrics, m.field))
              && m.industry == OrZero(PeerAvg(table, Latest(table, code).value, m.field))
  {
    match Latest(table, code)
    case None => Benchmark([], Tolerance)
    case Some(l) =>
      Benchmark(seq(|Layout|, c requires 0 <= c < |Layout| => CategoryOf(table, l, Layout[c])), Tolerance)
  }

  /** The company is among its own peers, so every metric it reports has
      a (non-fallback) industry average, whether or not its industry name
      is NULL. */
  lemma PeersIncludeCompany(table: seq<Row>, code: string, f: MetricField)
    requires Latest(table, code).Some?
    requires Field(Latest(table, code).value.metrics, f).Some?
    ensures PeerAvg(table, Latest(table, code).value, f).Some?
  {
    var l := Latest(table, code).value;
    var peers := Peers(table, l);
    FilterKeeps(table, (r: Row) => r.year == l.year && r.industryName == l.industryName, l);
    var k :| 0 <= k < |peers| && peers[k] == l;
    var vs := seq(|peers|, k requires 0 <= k < |peers| => Field(peers[k].metrics, f));
    assert vs[k].Some?;
  }

  /** A company whose industry name is NULL is compared with exactly the
      rows of its year whose industry name is NULL too. */
  lemma NullIndustryPeersAreNullRows(table: seq<Row>, code: string, r: Row)
    requires Latest(table, code).Some? && Latest(table, code).value.industryName.None?
    ensures r in Peers(table, Latest(table, code).value) <==>
              r in table && r.year == Latest(table, code).value.year && r.industryName.None?
  {
    var l := Latest(table, code).value;
    if r in table && r.year == l.year && r.industryName.None? {
      FilterKeeps(table, (x: Row) => x.year == l.year && x.industryName == l.industryName, r);
    }
  }

  // ---------------------------------------------------------------------
  // Company detail
  // ---------------------------------------------------------------------

  /** `market_map.get(m.upper(), m)` with `m = market or ""`: a market whose
      upper-cased text is a known market shows as that known market;
      anything else, NULL included, shows as stored (NULL as ""). */
  function MarketType(market: Option<string>): (t: string)
    ensures Upper(market.GetOr("")) in Markets ==> t == Upper(market.GetOr("")) && t in Markets
    ensures Upper(market.GetOr("")) !in Markets ==> t == market.GetOr("")
    ensures market.None? ==> t == ""
  {
    var m := market.GetOr("");
    if Upper(m) in Markets then Upper(m) else m
  }

  /** A market the check constraint admits is shown as stored; a NULL one
      as the empty string. */
  lemma MarketTypeKeepsValid(market: Option<string>)
    requires MarketOk(market)
    ensures MarketType(market) == market.GetOr("")
  {
    if market.Some? {
      var m := market.value;
      assert Upper(m) == m by {
        forall i | 0 <= i < |m|
          ensures UpperChar(m[i]) == m[i]
        {
        }
      }
    }
  }

  /** The fields of the detail page the model covers. */
  datatype Detail = Detail(
    companyName: string,
    foundedYear: int,
    ticker: string,
    marketType: string,
    riskLabel: int,
    chart: seq<(int, real)>,
    news: seq<string>,
    prob: real,
    percent: real,
    status: Status,
    icr: real,
    debtRatio: real,
    roa: real,
    sector: seq<SectorEntry>,
    benchmark: Benchmark,
    beneishMscore: Option<real>,
    beneishYear: int,
    scoreFill: int)

  datatype DetailError = NoData(code: string)

  /** A chart point: the row's year and its probability, NULL read as 0. */
  function ChartPoint(r: Row): (int, real) {
    (r.year, OrZero(r.metrics.defaultProb))
  }

  /** The chart's points, one per row of the company, in year order: every
      point is a row of the code (`ChartHasEveryRow` gives the converse),
      and no point lies after the latest year. */
  function Chart(table: seq<Row>, code: string): (chart: seq<(int, real)>)
    requires Latest(table, code).Some?
    ensures forall i, j :: 0 <= i < j < |chart| ==> chart[i].0 <= chart[j].0
    ensures forall k :: 0 <= k < |chart| ==> chart[k].0 <= Latest(table, code).value.year
    ensures |chart| == |RowsByYear(table, code)|
    ensures forall k :: 0 <= k < |chart| ==> chart[k] == ChartPoint(RowsByYear(table, code)[k])
  {
    var rows := RowsByYear(table, code);
    RowsBeforeLatest(table, code);
    seq(|rows|, k requires 0 <= k < |rows| => ChartPoint(rows[k]))
  }

  /** No row of the company is later than its latest row. */
  lemma RowsBeforeLatest(table: seq<Row>, code: string)
    requires Latest(table, code).Some?
    ensures forall k :: 0 <= k < |RowsByYear(table, code)| ==> RowsByYear(table, code)[k].year <= Latest(table, code).value.year
  {
    var rows := RowsByYear(table, code);
    forall k | 0 <= k < |rows|
      ensures rows[k].year <= Latest(table, code).value.year
    {
      var i :| 0 <= i < |table| && table[i] == rows[k];
    }
  }

  /** Every row of the company appears as a point of its chart. */
  lemma ChartHasEveryRow(table: seq<Row>, code: string, i: nat)
    requires Latest(table, code).Some?
    requires i < |table| && table[i].stockCode == code
    ensures ChartPoint(table[i]) in Chart(table, code)
  {
    var rows := RowsByYear(table, code);
    var chart := Chart(table, code);
    var k :| 0 <= k < |rows| && rows[k] == table[i];
    assert chart[k] == ChartPoint(table[i]);
  }

  /** `get_company_detail`. */
  function GetCompanyDetail(table: seq<Row>, code: string): (r: Result<Detail, DetailError>)
    ensures r.Failure? <==> forall i :: 0 <= i < |table| ==> table[i].stockCode != code
    ensures r.Success? ==>
              var l := Latest(table, code).value;
              var d := r.value;
              && d.companyName == l.companyName
              && d.foundedYear == l.foundedYear.GetOr(0)
              && d.ticker == code
              && d.marketType == MarketType(l.market)
              && d.riskLabel == l.riskLabel.GetOr(0)
              && d.beneishYear == l.year
              && d.beneishMscore == l.metrics.beneishMscore
              && d.prob == OrZero(l.metrics.defaultProb)
              && d.percent == d.prob * 100.0
              && d.status != NoInfo && d.status == StatusFromProb(Some(d.prob))
              && |d.news| <= 5
              && d.news == Take(l.newsTitles.GetOr([]), 5)
              && d.icr == OrZero(l.metrics.icr)
              && d.debtRatio == OrZero(l.metrics.debtRatio)
              && d.roa == OrZero(l.metrics.roa)
              && d.scoreFill == ScoreFill(l.metrics.beneishMscore)
              && d.sector == SectorSeries(table, l.year)
              && d.benchmark == BuildBenchmark(table, code)
    ensures r.Success? ==> r.value.chart == Chart(table, code)
  {
    match Latest(table, code)
    case None => Failure(NoData(code))
    case Some(l) =>
      var prob := OrZero(l.metrics.defaultProb);
      Success(Detail(
        companyName := l.companyName,
        foundedYear := l.foundedYear.GetOr(0),
        ticker := l.stockCode,
        marketType := MarketType(l.market),
        riskLabel := l.riskLabel.GetOr(0),
        chart := Chart(table, code),
        news := Take(l.newsTitles.GetOr([]), 5),
        prob := prob,
        percent := prob * 100.0,
        status := StatusFromProb(Some(prob)),
        icr := OrZero(l.metrics.icr),
        debtRatio := OrZero(l.metrics.debtRatio),
        roa := OrZero(l.metrics.roa),
        sector := SectorSeries(table, l.year),
        benchmark := BuildBenchmark(table, code),
        beneishMscore := l.metrics.beneishMscore,
        beneishYear := l.year,
        scoreFill := ScoreFill(l.metrics.beneishMscore)))
  }
}
