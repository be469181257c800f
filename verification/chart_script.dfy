/** The client-side logic of the dashboard page (static/script.js) that
    decides what is drawn: the risk gauge's status, the wrapping of long
    industry names, the industries selected when the sector chart first
    appears, and the filtering and ordering of its bars. Drawing itself is
    outside the model. */
module ChartScript {
  import opened Wrappers
  import opened PyValue
  import opened Sequences
  import opened CompanyService

  /** The gauge's three bands. */
  datatype GaugeLevel = GaugeDanger | GaugeWarning | GaugeSafe

  function GaugeText(g: GaugeLevel): string {
    match g
    case GaugeDanger => "위험"
    case GaugeWarning => "주의"
    case GaugeSafe => "양호"
  }

  function GaugeRank(g: GaugeLevel): nat {
    match g
    case GaugeSafe => 0
    case GaugeWarning => 1
    case GaugeDanger => 2
  }

  /** The gauge status for the score `parseFloat` read from the page; no
      status at all when the score is NaN. */
  function GaugeStatus(score: Double): (g: Option<GaugeLevel>)
    ensures g.None? <==> score == NaN
    ensures g.Some? ==> (g.value == GaugeDanger <==> AtLeast(score, Finite(66.67)))
    ensures g.Some? ==> (g.value == GaugeWarning <==> AtLeast(score, Finite(33.33)) && Less(score, Finite(66.67)))
    ensures g.Some? ==> (g.value == GaugeSafe <==> Less(score, Finite(33.33)))
  {
    if score == NaN then None
    else if AtLeast(score, Finite(66.67)) then Some(GaugeDanger)
    else if AtLeast(score, Finite(33.33)) then Some(GaugeWarning)
    else Some(GaugeSafe)
  }

  /** A higher score never shows a milder status. */
  lemma GaugeMonotone(a: real, b: real)
    requires a <= b
    ensures GaugeRank(GaugeStatus(Finite(a)).value) <= GaugeRank(GaugeStatus(Finite(b)).value)
  {
  }

  /** A chart label: the name itself, or two lines. */
  datatype Wrapped = Single(text: string) | Lines(first: string, second: string)

  const WrapWidth: nat := 10

  /** `s.lastIndexOf(c, from)` for `from < |s|`: the last index not after
      `from` holding `c`, or -1. */
  function LastIndexOf(s: string, c: char, from: nat): (i: int)
    requires from < |s|
    ensures -1 <= i <= from
    ensures i >= 0 ==> s[i] == c
    ensures forall j :: i < j <= from ==> s[j] != c
    decreases from
  {
    if s[from] == c then from
    else if from == 0 then -1
    else LastIndexOf(s, c, from - 1)
  }

  /** No space among `s[lo..hi]`. */
  predicate SpaceFree(s: string, lo: nat, hi: nat)
    requires lo <= hi <= |s|
  {
    forall j :: lo <= j < hi ==> s[j] != ' '
  }

  /** `wrapLabel(name)`: names of at most ten characters are kept; longer
      ones are cut at the last space at or before index 10, or at index 10
      when there is none, and the character at the cut is dropped. */
  function WrapLabel(name: string): (w: Wrapped)
    ensures w.Single? <==> |name| <= WrapWidth
    ensures w.Single? ==> w.text == name
    ensures w.Lines? ==>
              var cut := |w.first|;
              cut <= WrapWidth && w.first == name[..cut] && w.second == name[cut + 1..]
    ensures w.Lines? && !SpaceFree(name, 0, WrapWidth + 1) ==>
              name[|w.first|] == ' ' && SpaceFree(name, |w.first| + 1, WrapWidth + 1)
    ensures w.Lines? && SpaceFree(name, 0, WrapWidth + 1) ==> |w.first| == WrapWidth
  {
    if |name| <= WrapWidth then Single(name)
    else
      var i := LastIndexOf(name, ' ', WrapWidth);
      var cut := if i == -1 then WrapWidth else i;
      Lines(name[..cut], name[cut + 1..])
  }

  /** A cut at a space loses only that space: the two lines joined by a
      space give the name back. A cut without a space loses the eleventh
      character. */
  lemma WrapLabelRejoins(name: string)
    requires |name| > WrapWidth
    ensures !SpaceFree(name, 0, WrapWidth + 1) ==>
              name == WrapLabel(name).first + " " + WrapLabel(name).second
    ensures SpaceFree(name, 0, WrapWidth + 1) ==>
              name == WrapLabel(name).first + [name[WrapWidth]] + WrapLabel(name).second
  {
    var w := WrapLabel(name);
    var cut := |w.first|;
    assert name == name[..cut] + [name[cut]] + name[cut + 1..];
  }

  /** The sector chart's labels, in `allData` order. */
  function DataLabels(data: seq<SectorEntry>): (ts: seq<string>)
    ensures |ts| == |data| && forall k :: 0 <= k < |data| ==> ts[k] == data[k].labelText
  {
    seq(|data|, k requires 0 <= k < |data| => data[k].labelText)
  }

  /** What the label set starts with: the highlighted industry, when it is
      truthy (a non-empty string). */
  function Seed(highlight: string): (s: seq<string>)
    ensures |s| <= 1 && (s == [] <==> highlight == "")
    ensures s != [] ==> s[0] == highlight
  {
    if highlight != "" then [highlight] else []
  }

  const MaxDefaults: nat := 4

  /** Adding the elements of `all` in order to an insertion-ordered set,
      stopping before an element once the set holds `cap`. */
  method FillSet<T(==)>(all: seq<T>, cap: nat) returns (r: seq<T>)
    ensures r == Take(DedupFirst(all), cap)
  {
    r := [];
    var i := 0;
    while i < |all| && |r| < cap
      invariant 0 <= i <= |all|
      invariant r == DedupFirst(all[..i])
      invariant |r| <= cap
    {
      DedupFirstStep(all, i);
      if all[i] !in r {
        r := r + [all[i]];
      }
      i := i + 1;
    }
    FillSetStops(all, i, cap);
  }

  lemma DedupFirstStep<T>(all: seq<T>, i: nat)
    requires i < |all|
    ensures DedupFirst(all[..i + 1]) ==
      if all[i] in DedupFirst(all[..i]) then DedupFirst(all[..i]) else DedupFirst(all[..i]) + [all[i]]
  {
    assert all[..i + 1] == all[..i] + [all[i]];
    DedupFirstAppend(all[..i], all[i]);
  }

  /** Where the fill stops, at the end of the input or at the cap, it
      holds the first `cap` distinct elements. */
  lemma FillSetStops<T>(all: seq<T>, i: nat, cap: nat)
    requires i <= |all| && |DedupFirst(all[..i])| <= cap
    requires i == |all| || |DedupFirst(all[..i])| == cap
    ensures DedupFirst(all[..i]) == Take(DedupFirst(all), cap)
  {
    DedupFirstPrefix(all, i);
    if i == |all| {
      assert all[..i] == all;
    }
  }

  /** `initChart`'s default selection: a set seeded with the highlight,
      then filled with `allData`'s labels in order until it holds four.
      The seed is the set's first insertion, so this is one fill over the
      highlight followed by the labels. */
  method InitChartDefaults(highlight: string, data: seq<SectorEntry>) returns (labels: seq<string>)
    ensures labels == Take(DedupFirst(Seed(highlight) + DataLabels(data)), MaxDefaults)
  {
    labels := FillSet(Seed(highlight) + DataLabels(data), MaxDefaults);
  }

  /** The default selection holds at most four distinct industries, starts
      with the highlight when there is one, and otherwise holds only names
      from the data. */
  lemma DefaultsShape(highlight: string, data: seq<SectorEntry>)
    ensures var labels := Take(DedupFirst(Seed(highlight) + DataLabels(data)), MaxDefaults);
      && |labels| <= MaxDefaults
      && (forall i, j :: 0 <= i < j < |labels| ==> labels[i] != labels[j])
      && (highlight != "" ==> labels != [] && labels[0] == highlight)
      && (forall k :: 0 <= k < |labels| ==> labels[k] == highlight || labels[k] in DataLabels(data))
  {
    var all := Seed(highlight) + DataLabels(data);
    var d := DedupFirst(all);
    if highlight != "" {
      DedupFirstPrefix(all, 1);
      assert all[..1] == [highlight];
      assert DedupFirst(all[..1]) == [highlight] by {
        assert all[..1][..0] == [];
      }
    }
    forall k | 0 <= k < |Take(d, MaxDefaults)|
      ensures Take(d, MaxDefaults)[k] == highlight || Take(d, MaxDefaults)[k] in DataLabels(data)
    {
      DedupFirstFrom(all, d[k]);
    }
  }

  /** The labels `updateChart` filters with: the highlight is added when
      "keep" is ticked and it is missing. */
  function Selection(keep: bool, highlight: string, selected: seq<string>): (sel: seq<string>)
    ensures forall t :: t in sel <==> t in selected || (keep && t == highlight)
  {
    if keep && highlight !in selected then selected + [highlight] else selected
  }

  function ByValue(d: SectorEntry): real {
    d.value
  }

  /** `updateChart(selected)`: the data items whose label is selected,
      largest value first. */
  function UpdateChart(keep: bool, highlight: string, selected: seq<string>, data: seq<SectorEntry>)
    : (shown: seq<SectorEntry>)
    ensures SortedDesc(shown, ByValue)
    ensures multiset(shown) == multiset(Filter(data, (d: SectorEntry) => d.labelText in Selection(keep, highlight, selected)))
  {
    SortDesc(Filter(data, (d: SectorEntry) => d.labelText in Selection(keep, highlight, selected)), ByValue)
  }

  /** Exactly the selected items are drawn: an item appears iff its label
      is selected or it is the kept highlight. */
  lemma UpdateChartShowsSelected(keep: bool, highlight: string, selected: seq<string>,
                                 data: seq<SectorEntry>, d: SectorEntry)
    ensures d in UpdateChart(keep, highlight, selected, data) <==>
              d in data && (d.labelText in selected || (keep && d.labelText == highlight))
  {
    var p := (e: SectorEntry) => e.labelText in Selection(keep, highlight, selected);
    var f := Filter(data, p);
    var shown := UpdateChart(keep, highlight, selected, data);
    if d in shown {
      PermutationIn(shown, f, d);
    }
    if d in data && p(d) {
      FilterKeeps(data, p, d);
      PermutationIn(f, shown, d);
    }
  }

  /** One bar of the chart: the wrapped name, the value as a percentage,
      and whether it is the highlighted industry. */
  datatype Bar = Bar(name: Wrapped, percent: real, highlighted: bool)

  function Bars(shown: seq<SectorEntry>, highlight: string): (bars: seq<Bar>)
    ensures |bars| == |shown|
    ensures forall k :: 0 <= k < |bars| ==>
              bars[k] == Bar(WrapLabel(shown[k].labelText), shown[k].value * 100.0, shown[k].labelText == highlight)
  {
    seq(|shown|, k requires 0 <= k < |shown| =>
      Bar(WrapLabel(shown[k].labelText), shown[k].value * 100.0, shown[k].labelText == highlight))
  }

  /** Series values in [0, 1], as the stored probabilities give them, draw
      bars in [0, 100], and exactly the items labelled with the highlight
      are highlighted. */
  lemma BarsInPercentRange(shown: seq<SectorEntry>, highlight: string)
    requires forall k :: 0 <= k < |shown| ==> 0.0 <= shown[k].value <= 1.0
    ensures forall k :: 0 <= k < |shown| ==>
              0.0 <= Bars(shown, highlight)[k].percent <= 100.0
              && (Bars(shown, highlight)[k].highlighted <==> shown[k].labelText == highlight)
  {
  }
}
