# riskqueens dashboard core in Dafny

This project models riskqueens, a dashboard of corporate default risk,
and proves properties of that model. It covers:

- **the CSV loader**, which normalises a spreadsheet of companies into
  `dashboard_flat` rows and inserts them chunk by chunk, falling back
  from a multi-row insert to a single-statement insert to row-by-row
  inserts;
- **the `dashboard_flat` record**, with its composite key and its two
  check constraints;
- **the company service**, which resolves user input to a stock code and
  assembles a company's detail page: the latest year, the Beneish donut,
  the sector series and the industry benchmark;
- **the alert mailer's** configuration and number formatters;
- **the page handler's** redirect and gauge score;
- **the chart script's** gauge bands, label wrapping, default selection
  and bar filter.

The database is a `seq<Row>`, and each SQL query is a function over it:
filter, group, average, sort, limit. SQL `NULL` is `Option.None`. Python
values that reach the code untyped are a `Value`: `None`, `int`, `float`
or `str`. A float is a `Double`: finite, ±inf or NaN. The conversions the
code applies are modelled with Python's rules: `float()`, `int()`,
`str()`, `round`, `pd.isna`, truthiness, and `min`/`max` with NaN.

Each SQL insert is the atomic, all-or-nothing call of an abstract
*oracle*, which accepts or rejects the batch. The loop's contract holds
for every oracle. The database's own constraints are one such oracle
(`LoadCsv.DbAccepts`).

Modules, one per file:

| file | module | models |
|---|---|---|
| wrappers.dfy | `Wrappers` | `Option`, `Result` |
| pytext.dfy | `PyText` | `str` methods: `strip`, `zfill`, `split`, `upper`/`lower`, numerals, code-point order |
| pyvalue.dfy | `PyValue` | Python scalars, `float()`/`int()`/`str()`, `round`, NaN comparisons |
| sequences.dfy | `Sequences` | keep-last/keep-first dedup, stable descending sort, filter, chunks, mean |
| dashboard_flat.dfy | `DashboardFlat` | the row record, its key and constraints, a constraint-checking insert |
| transforms.dfy | `Transforms` | `to_year`, `zfill6`, `binarize_label` |
| load_csv.dfy | `LoadCsv` | required columns, normalisation, dedup, rename/reindex, chunked load |
| company_service.dfy | `CompanyService` | status, score fill, latest row, sector series, benchmark, detail |
| resolver.dfy | `CodeResolver` | `resolve_stock_code` |
| mailer.dfy | `Mailer` | `_env_bool`, the formatters, recipients, config check |
| chart_script.dfy | `ChartScript` | gauge, `wrapLabel`, `initChart` defaults, `updateChart` |
| web_app.dfy | `WebApp` | `company_redirect`, `to_score_0_100`, `raw_percent`, gauge score |

## Model

| member | source | states |
|---|---|---|
| DashboardFlat.InsertAll | db_models/dashboard_flat.py:14-80 | an insert into a valid table succeeds iff the table with the batch appended keeps unique `(stock_code, year)` keys, codes of at most 10 characters, markets in {KOSPI, KOSDAQ, 비상장} or NULL and labels in {0, 1} or NULL; on success the table is the old one followed by the batch |
| DashboardFlat.MetricsOf | db_models/dashboard_flat.py:29-45 | a metric record built from a per-field function reads back that function on each of its 16 fields (one record holds the ratios, another the `median_*` columns) |
| Transforms.ToYear | etl/load_csv.py:10-15 | missing input gives None; otherwise the result is the leftmost `(19|20)\d\d` in `str(x)` as an int in [1900, 2099], and None iff there is no such substring |
| Transforms.Zfill6 | etl/load_csv.py:18-25 | None iff the input is missing; otherwise `str(int(x))`, or the stripped `str(x)` when `int()` raises, left-padded with '0' to at least 6 characters (the text is the tail and everything before it is '0') |
| Transforms.Zfill6KeepsNumber | etl/load_csv.py:21-25 | a non-negative integer code becomes an all-digit string whose value is the code |
| Transforms.Zfill6KeepsNegative | etl/load_csv.py:21-25 | a negative integer code keeps its '-' in front of the zeros, and the digits after it denote the magnitude |
| Transforms.Zfill6Value | etl/load_csv.py:21-25 | the padded code of any integer cell, read back with its sign, is that integer |
| Transforms.Zfill6Injective | etl/load_csv.py:21-25 | two integer-valued codes, of either sign, give the same padded text iff they are the same integer |
| Transforms.BinarizeLabel | etl/load_csv.py:28-37 | the result is 0 or 1; 1 iff the value parses to at least 0.5; unparsable input gives 0; a NaN value passes `float()` and reaches `int(round(v))`, which raises (None) |
| LoadCsv.MissingNames | etl/load_csv.py:60-62 | the list is empty iff every required header is present, and every listed name is absent from the header |
| LoadCsv.MissingNamesSpec | etl/load_csv.py:48-62 | every absent required column is listed, in required-list order (the positions are increasing) |
| LoadCsv.Stage | etl/load_csv.py:65-110 | one record becomes a row with the padded code, the integer year, the company name, industry code, industry name, industry category and market as `str(cell)` (so a missing industry is the text "nan", never NULL), no news titles, the founding year from `to_year`, the label in {0, 1}, and each ratio and median from its own column with NaN/inf stored as NULL |
| LoadCsv.NormalizeAll | etl/load_csv.py:65-110 | succeeds iff every record's columns convert, and then the rows are the records converted one by one |
| LoadCsv.StripSuffix | etl/load_csv.py:116-117 | the result is a prefix of the name; it differs from the name iff the name ends in `_m` followed by digits, and then exactly that suffix is removed |
| LoadCsv.RenameIsIdentity | etl/load_csv.py:116-120 | the suffix strip and the `ustry_category` fix change none of the 41 built column names |
| LoadCsv.ReindexIsIdentity | etl/load_csv.py:65-136 | the 41 columns are built in exactly the order the reindex lists them, so the reindex reorders and adds nothing |
| LoadCsv.ColumnsComplete | etl/load_csv.py:48-110 | every source column is both required and built |
| LoadCsv.Prepare | etl/load_csv.py:48-143 | missing columns fail with their names before any record is looked at; otherwise it succeeds iff every record converts, and then the rows have unique `(stock_code, year)` keys, binary labels and no more rows than the input |
| LoadCsv.KeptRows | etl/load_csv.py:113-143 | one row per listed last-occurrence position, in that order, each the staged row at its position with the code as text; the keys are unique and the labels binary |
| LoadCsv.PrepareIsKeptRows | etl/load_csv.py:65-143 | a successful preparation converted every record and its rows are exactly `KeptRows` of the staged records |
| LoadCsv.KeptRowsAreLast | etl/load_csv.py:113 | the kept rows follow the input order, and no staged row after a kept one has its key (keep="last") |
| LoadCsv.KeptRowsKeepEveryKey | etl/load_csv.py:113 | every staged record's `(stock_code, year)` key is the key of some kept row |
| LoadCsv.DedupRowsUnique | etl/load_csv.py:113 | after keep-last dedup on `(code, year)` and the `str` of the code, no two rows share a key |
| LoadCsv.MissingCodeBecomesNoneText | etl/load_csv.py:19-20 | a missing exchange code is stored as the four-letter text "None" |
| LoadCsv.MissingMarketFailsCheck | etl/load_csv.py:71 | a missing market is stored as the text "nan", which the market check constraint rejects |
| LoadCsv.NanLabelStopsRun | etl/load_csv.py:33-37 | a NaN label in any record makes the whole preparation fail with a conversion error |
| LoadCsv.LoadChunks | etl/load_csv.py:202-247 | a completed load appends all rows; an aborted one appends exactly the rows before the failing row, which was rejected alone, after its chunk failed in multi and single mode and the chunk's earlier rows went in one by one; every earlier chunk was committed whole; an oracle that keeps tables valid keeps the table valid |
| LoadCsv.Run | etl/load_csv.py:146-247 | a preparation error leaves the table untouched; otherwise the load starts from the empty table under `--truncate` and from the current one without it, and with `--truncate` the final table is a prefix of the prepared rows |
| Sequences.DedupLast | etl/load_csv.py:113 | keep-last dedup keeps the elements at the listed last-occurrence positions, in order, and the kept keys are distinct |
| Sequences.LastPositionsSpec | etl/load_csv.py:113 | the listed positions are exactly those holding the last occurrence of their key, increasing, so survivors keep their relative order |
| Sequences.DedupLastCount | etl/load_csv.py:113 | the result has one element per distinct key of the input |
| Sequences.DedupLastKeepsEveryKey | etl/load_csv.py:113 | every key of the input occurs in the output |
| Sequences.Chunks | etl/load_csv.py:203-204 | the chunks are non-empty, at most `size` long, and concatenate to the input |
| Sequences.ChunkAt | etl/load_csv.py:203-204 | chunk `k` is the slice starting at `k*size` |
| LoadCsv.ChunkIsCommittedSlice | etl/load_csv.py:203-204 | chunk `k` of the 4000-row slicing starts at a multiple of 4000 inside the rows and is the slice `LoadChunks` commits there |
| CompanyService.MarketType | services/company_service.py:37-42 | a market whose upper-cased text is KOSPI, KOSDAQ or 비상장 shows as that market; any other market shows as stored, and NULL as "" |
| CompanyService.MarketTypeKeepsValid | services/company_service.py:37-42 | a market the check constraint admits shows exactly as stored, NULL as "" |
| CompanyService.Chart | services/company_service.py:21-50 | one point (year, probability with NULL read as 0) per row of the company, in year order, none after the latest year |
| CompanyService.ChartHasEveryRow | services/company_service.py:21-50 | every row of the company appears as a point of the chart |
| CompanyService.StatusFromProb | services/company_service.py:11-17 | "정보없음" iff the probability is NULL; otherwise "위험" iff ≥ 0.6, "경고" iff in [0.4, 0.6), "양호" iff < 0.4 |
| CompanyService.StatusMonotone | services/company_service.py:11-17 | a larger probability never gets a milder status |
| CompanyService.ScoreFill | services/company_service.py:33-34 | 100 iff the M-score is present and at least -2.22, otherwise 0 |
| CompanyService.Latest | services/company_service.py:21-30 | None iff the code has no row; otherwise a row of the code whose year is the largest among the code's rows |
| CompanyService.LatestUnique | services/company_service.py:21-30 | with unique keys the latest row is the only row of the code in that year |
| CompanyService.SqlAvg | services/company_service.py:78 | SQL AVG: NULL iff every value is NULL, otherwise the mean of the non-NULL values |
| CompanyService.SqlAvgBounds | services/company_service.py:78 | the average of values in [lo, hi] is in [lo, hi] |
| CompanyService.Groups | services/company_service.py:75-81 | `GROUP BY industry_name`: every row's name has a group, every group's name is some row's (NULL names together), no name has two groups, and each group's average is SQL AVG over the rows of that name |
| CompanyService.OrderByAvgDesc | services/company_service.py:82 | the groups are permuted so that the NULL averages come first (Postgres DESC) and the rest descend |
| CompanyService.SectorSeries | services/company_service.py:74-90 | the series is the first min(6, #groups) groups of the latest year's industries in average-descending order, each labelled by its name or "기타" and valued by its average or 0 |
| CompanyService.SectorSeriesIsTop | services/company_service.py:82-89 | a group with an average that is left out of the six has an average no larger than every shown non-NULL average |
| CompanyService.SectorValuesInUnitRange | services/company_service.py:84-89 | when the stored probabilities are in [0, 1], so is every value of the series |
| CompanyService.LayoutShape | services/company_service.py:218-258 | four categories of 4, 3, 2 and 2 metrics with distinct fields, and the debt ratio is the only lower-is-better metric |
| CompanyService.Compare | services/company_service.py:160-173 | a metric keeps its name, field and direction, and shows the company's value and the industry average, each with NULL read as 0 |
| CompanyService.BuildBenchmark | services/company_service.py:175-263 | tolerance 0.05; no categories iff the code has no row; otherwise the categories follow the layout, each metric comparing the latest row's value with the average over rows of the same year and the same industry name (NULL matching NULL), with a NULL value or average read as 0 |
| CompanyService.PeersIncludeCompany | services/company_service.py:188-208 | when the latest row reports a metric, the industry average of that metric is not NULL, whether or not the industry name is NULL (the row is among its own peers) |
| CompanyService.NullIndustryPeersAreNullRows | services/company_service.py:188-206 | when the latest row's industry name is NULL, `industry_name == None` compiles to `IS NULL`, so the peers are exactly the rows of that year whose industry name is NULL |
| CompanyService.GetCompanyDetail | services/company_service.py:19-116 | fails iff the code has no row; otherwise it shows the latest row's name, founding year and label with NULL read as 0, the market through the market map, its year and M-score, the probability with NULL read as 0, the percentage as 100 times that, a status that is never "정보없음", the first 5 news titles (none when NULL), the ICR, debt ratio and ROA with NULL read as 0, the score fill, the sector series of that year and the benchmark |
| CodeResolver.Resolve | services/company_service.py:123-124 | `EmptyId` iff the input is empty |
| CodeResolver.FailsIffNoRule | services/company_service.py:123-158 | resolution fails iff the input is empty or none of the three rules applies (digits padding to a stored code, a name containing the input, six typed digits); a non-empty input that fails is reported as unresolved |
| CodeResolver.DigitsRuleFirst | services/company_service.py:126-142 | when the input's digits, padded to 6, are a stored code, that code is returned before any name search |
| CodeResolver.NameRuleSecond | services/company_service.py:144-152 | otherwise, when some name contains the upper-cased input, the code of the matching row first by name ascending, then year descending, is returned |
| CodeResolver.SixDigitsResolveToThemselves | services/company_service.py:133-156 | six typed digits that no name contains resolve to themselves, whether the code is stored or not |
| CodeResolver.FallbackCodeIsNotStored | services/company_service.py:126-156 | when the digit rule has not fired and no name matches, a successful resolution is the typed text itself and no row holds that code |
| CodeResolver.ResolvedShape | services/company_service.py:119-158 | every resolved code is a stored code or six digits |
| CodeResolver.First | services/company_service.py:148-150 | `ORDER BY company_name ASC, year DESC LIMIT 1` picks a row ranked no later than any other |
| Mailer.EnvBoolDefault | services/mailer.py:6-8 | an unset variable reads as its default |
| Mailer.EnvBoolIgnoresCase | services/mailer.py:6-8 | a value and its lower-cased form read the same |
| Mailer.FmtProbPct | services/mailer.py:13-39 | empty iff the value is None, "" or not a number; otherwise a number in [0, 100] with at most two decimals |
| Mailer.FmtProbPctScales | services/mailer.py:28-39 | a fraction p shows 100p cut, not rounded, to two decimals, and 100p and 10000p show the same when they fall in the ranges that are rescaled |
| Mailer.FmtProbPctOutOfRange | services/mailer.py:28-35 | negatives and -inf show 0; values above 10000, +inf and NaN show 100 |
| Mailer.FmtRatioPctAuto | services/mailer.py:43-57 | empty iff None, "" or not a number; a finite x becomes 100x iff -1.5 ≤ x ≤ 1.5 and stays x otherwise |
| Mailer.FmtNum | services/mailer.py:59-67 | empty iff None, "" or not a number; otherwise exactly the number `float()` reads, unscaled |
| Mailer.RatioIsScaledNum | services/mailer.py:43-67 | the ratio and number formatters leave the same cells empty; a finite number in [-1.5, 1.5] shows 100 times larger as a ratio, and every other number, infinities and NaN included, shows the same |
| Mailer.RatioAndProbDisagree | services/mailer.py:29-32 | 1.2 is a ratio of 120% and a probability of 1.2% |
| Mailer.Recipients | services/mailer.py:84 | every recipient is non-empty, has no surrounding whitespace and is a stripped entry of `MAIL_TO`; every entry that is not blank after stripping is a recipient |
| Mailer.CleanPartsIsFilter | services/mailer.py:84 | the recipients are exactly the stripped entries with the empty ones filtered out, in the entries' order |
| Mailer.RecipientsRoundTrip | services/mailer.py:84 | clean addresses joined by commas read back as exactly those addresses, in order |
| Mailer.BlankMailToHasNoRecipients | services/mailer.py:84-87 | a blank `MAIL_TO` gives no recipient |
| Mailer.ProbField | services/mailer.py:95-97 | `default_prob_pct` unless it is None, then `default_prob` |
| Mailer.RowCells | services/mailer.py:93-102 | the probability cell formats `default_prob_pct`, or `default_prob` when that is None; the ICR cell is the plain number; the capital impairment and debt cells are empty iff their value is blank or unparsable, and otherwise a finite value in [-1.5, 1.5] is shown 100 times larger |
| Mailer.CheckConfig | services/mailer.py:77-87 | an unparsable port raises first; otherwise the settings are rejected iff the host, user or password is missing, the port is 0 or there is no recipient; accepted settings carry the parsed port and the recipients |
| Mailer.SendAlertEmail | services/mailer.py:69-152 | it fails iff the settings are rejected, with the same error, before anything is built; otherwise the mail carries the settings (host, user and password exactly as `SMTP_HOST`, `SMTP_USER` and `SMTP_PASS` give them), the recipients and one row of cells per alert row |
| Mailer.CompleteConfigSends | services/mailer.py:77-152 | with a complete configuration the mail goes out on the configured port and its count is the number of listed addresses |
| ChartScript.GaugeStatus | static/script.js:155-170 | no status for NaN; '위험' iff score ≥ 66.67, '주의' iff in [33.33, 66.67), '양호' iff below 33.33 |
| ChartScript.GaugeMonotone | static/script.js:164-170 | a higher score never shows a milder status |
| ChartScript.WrapLabel | static/script.js:309-314 | names of at most 10 characters are kept; longer ones are cut at the last space at index ≤ 10 or, with none, at index 10, and the character at the cut is dropped |
| ChartScript.WrapLabelRejoins | static/script.js:311-313 | a cut at a space rejoins with that space to the name; a cut without a space loses the character at index 10 |
| ChartScript.FillSet | static/script.js:389-397 | adding elements to an insertion-ordered set until it holds `cap` gives the first `cap` distinct elements |
| ChartScript.InitChartDefaults | static/script.js:388-398 | the default labels are the first four distinct names of the highlight followed by the data's labels |
| ChartScript.DefaultsShape | static/script.js:388-398 | at most four distinct labels, starting with the highlight when it is truthy, the rest from the data |
| ChartScript.Bars | static/script.js:329-335 | one bar per shown item, in order: the wrapped label, the value times 100, highlighted iff the label is the highlight |
| ChartScript.BarsInPercentRange | static/script.js:333-334 | values in [0, 1] draw bars in [0, 100], and exactly the items labelled with the highlight are highlighted |
| ChartScript.UpdateChart | static/script.js:316-323 | the bars are the selected items sorted by value, largest first |
| ChartScript.UpdateChartShowsSelected | static/script.js:317-323 | an item is drawn iff its label is selected, or it is the highlight and the keep box is checked |
| WebApp.CompanyRedirect | main.py:23-30 | the redirect goes to the resolved code, and to "005930" whenever resolution raises |
| WebApp.RedirectTarget | main.py:23-30 | the redirect lands on a stored code, six typed digits or "005930", and empty input always lands on "005930" |
| WebApp.ToScore | main.py:58-76 | always in [0, 100]; 0 for None and for text that does not parse |
| WebApp.ScoreForms | main.py:63-74 | the text of a percentage scores as that percentage, with or without one trailing '%' |
| WebApp.ScoreOfFraction | main.py:72-76 | a percentage above 1 and its fraction of 100 score the same |
| WebApp.ScoreOfSpecials | main.py:75-76 | NaN and +inf score 100, -inf scores 0 |
| WebApp.FirstTruthy | main.py:79-84 | the first truthy value, or 0 when there is none |
| WebApp.PercentCellOf | main.py:33-54 | the card shows a percentage iff the code resolves and its detail loads, and that percentage is 100 times the detail's probability; otherwise the fallback card's "-" |
| WebApp.RawPercent | main.py:79-84 | a truthy `percent` is the one read |
| WebApp.SmallProbabilityInflated | main.py:72-74 | a card percentage in (0, 1] scores 100 times itself |
| WebApp.RiskScoreAsWritten | main.py:58-85 | the page's gauge score: 0 for a "-" card; a card percentage p in [0, 1] gives 100p, one in (1, 100] gives p, and the rest is clamped to [0, 100] |
| WebApp.RiskScore | main.py:58-85 | the corrected score: 0 for a "-" card; a card percentage in [0, 100] is the score itself, and the rest is clamped to [0, 100] |
| WebApp.IntendedPageGauge | static/script.js:164-170 | the gauge band of the corrected score: danger iff the card percentage is at least 66.67, caution iff in [33.33, 66.67), safe iff below 33.33 or no percentage |
| WebApp.RiskScoreIsPercent | main.py:72-76 | the corrected score is the probability in percent and agrees with the page above 1% |
| WebApp.GaugeAndCardDisagree | static/script.js:164-170 | at a probability of 0.62 the card says danger and the gauge says caution |
| WebApp.GaugeAndCardAgreeAtExtremes | services/company_service.py:15-17 | from 66.67% both say danger, and a good card never shows a danger gauge |
| PyText.Zfill | etl/load_csv.py:25 | `zfill(width)` keeps strings of at least `width`, otherwise pads with '0' to exactly `width`, after any leading sign |
| PyText.Split | services/mailer.py:84 | the parts contain no separator and join back to the input |
| PyText.SplitUnique | services/mailer.py:84 | any separator-free cut that joins back to the input is the split |
| PyText.StrLeTransitive | services/company_service.py:148 | the name order is transitive, so the first match is well defined |
| PyValue.ParseIntRoundTrip | etl/load_csv.py:22 | `int(str(i)) == i` |
| PyValue.Clamp100 | main.py:76 | `max(0, min(100, x))` lies in [0, 100], keeps values inside, and sends NaN and +inf to 100 |

## Left out

- WebApp.RiskScoreAsWritten: reads the card as the exact 100·p, while the
  page reads the one-decimal text of services/company_service.py:62. The
  rounding moves the inflated band from (0, 1%] to roughly [0.05%, 1.05%):
  at a probability of 0.0104 the card text is "1.0%", which the page
  scores 100, while the model scores 1.04.
- Floating point: finite doubles are exact reals. The rounding of
  `x*100`, of `x/100` and of decimal-to-binary conversion is not
  modelled, and neither is `str()` of a float in exponent form.
- Text layout is not modelled, only the numbers behind it. This covers
  `:.1f`, `toFixed(1)`, thousands separators, the Decimal text and the
  HTML of the mail. The card's percent is the exact value 100·p rather
  than its one-decimal text.
- `str` methods are ASCII only. The model omits Unicode digits (which
  `\d` and `isdigit` accept), non-ASCII whitespace (`\x85`, `\xa0`,
  `\u2000`-`\u200a` and the like, which `strip` also removes), Unicode
  case mapping, and underscores in numerals.
- ChartScript.WrapLabel: lengths and cut positions count code points,
  while JavaScript's `length` and `substring` count UTF-16 code units.
  The two agree for the Korean and ASCII names of the dataset, which lie
  in the Basic Multilingual Plane, and differ only for characters
  outside it.
- `ilike` is modelled as containment after ASCII upper-casing. The `%`
  and `_` wildcards in user input and locale collation are not modelled:
  names are ordered by code point.
- SQL leaves the order of equal averages and of equal (name, year) pairs
  unspecified. The model picks one stable order.
- The sector series averages `default_prob` per `industry_name` and keeps
  the top 6. The benchmark averages each metric over the rows of the same
  industry and year. Neither reads the stored `median_*` columns.
- The database engine, sessions, the `ALTER TABLE` migration, CSV
  decoding and its encoding fallback, and pandas dtype inference are left
  out. The model keeps only the fact that truncation happens before the
  chunks.
- DashboardFlat.InsertAll: its "succeeds iff" leaves out the range of the
  `Integer` columns `year` and `founded_year` (db_models/dashboard_flat.py:16,24).
  A 32-bit overflow there is rejected by the database engine, which is
  not modelled.
- Inside a `to_sql` call the oracle is atomic, as the comment at
  etl/load_csv.py:208 says. The `chunksize=800` sub-batches inside one
  multi insert are not modelled separately.
- SMTP/SSL delivery, the OpenAI report, FastAPI routing and templates,
  Chart.js rendering, the theme, and `print` logging are left out: they
  are I/O.
- `get_latest_alert_companies` is not part of this model. The alert rows
  are taken as input.
- `news_titles` is never written by the loader. Loaded rows carry `None`.
- Transforms.ToYear: Python's `re.search` is modelled on the whole
  string. The regex has no anchors, so this is exact.
- LoadCsv.NanLabelStopsRun: states only that the run fails with some
  conversion error. When an earlier column of an earlier record also
  fails, the error names that column, not `label`.
- LoadCsv.Stage: the `astype(int)` of the year truncates floats. Very
  large floats that pandas would reject are not modelled.
- ChartScript.UpdateChart: does not state the stability of the sort for
  equal values (JavaScript's sort is stable, and so is the model's).
- ChartScript.GaugeStatus: the score is read with `parseFloat`. The model
  takes the parsed double as input.
- Mailer.SendAlertEmail: `int()` of the port accepts any integer. A port
  outside 1-65535 fails only at connection time, which is not modelled.

## Findings

| source | as written | input that shows it | evidently intended | confidence | as-written member | corrected member |
|---|---|---|---|---|---|---|
| main.py:72-74 | `to_score_0_100` multiplies every value in [0, 1] by 100, but the value it receives is the card text `f"{prob*100:.1f}%"` from services/company_service.py:62, which is already a percentage | default_prob 0.005: the card shows "0.5%" and the gauge shows 50 (every probability whose card text reads in (0, 1], roughly [0.05%, 1.05%) after the one-decimal rounding, is inflated a hundredfold; the model reads the exact 100·p and shows the band (0, 1%]) | the gauge shows the card's percentage, 0.5 | high (not executed) | WebApp.RiskScoreAsWritten, shown by WebApp.SmallProbabilityInflated and WebApp.HalfPercentReadsAsFifty | WebApp.RiskScore, proved by WebApp.RiskScoreIsPercent and used by WebApp.IntendedPageGauge |
