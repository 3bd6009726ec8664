/**
  The activity-status panel of the staff dashboard (public/js/pages/staff/virkni.js).

  Students are grouped by activity status (virkir, ad_detta, nylega_haettir,
  haettir, ovirkir). The panel shows one count card per status; clicking a
  card draws that status's counts per school as horizontal bars, largest
  first, coloured with the status's CSS colour variable.
*/
module Virkni {
  import opened JsSemantics
  import opened Sequences
  import opened BarChart

  /** The `activityStatus` reply. A missing `counts` or `countsBySchool` object is an
      empty map; a status without per-school data has no key in `countsBySchool`. */
  datatype ActivityResponse = ActivityResponse(
    status: string,
    counts: map<string, int>,
    countsBySchool: map<string, seq<Entry>>)

  /** One bar of the breakdown: school, count and width in percent. */
  datatype SchoolBar = SchoolBar(school: string, count: int, width: real)

  /** What the `activityBreakdown` container shows. */
  datatype Breakdown =
    | NoData
    | Breakdown(title: string, colorVar: string, bars: seq<SchoolBar>)

  // ---------------------------------------------------------------------------
  // Labels and colours
  // ---------------------------------------------------------------------------

  const StatusLabels: map<string, string> := map[
    "virkir" := "Virkir",
    "ad_detta" := "Að detta úr",
    "nylega_haettir" := "Nýlega hættir",
    "haettir" := "Hættir",
    "ovirkir" := "Óvirkir"]

  /** `statusLabels[status] || status`: the fixed label of a known status, the status
      itself otherwise. */
  function StatusLabel(status: string): (text: string)
    ensures status in StatusLabels ==> text == StatusLabels[status]
    ensures status !in StatusLabels ==> text == status
  {
    if status in StatusLabels then StatusLabels[status] else status
  }

  /** The five known statuses have non-empty labels, so the fallback is never taken
      for them, and each label differs from its status key. */
  lemma KnownLabelsAreFixed(status: string)
    requires status in StatusLabels
    ensures StatusLabel(status) != [] && StatusLabel(status) != status
  {
  }

  /** The breakdown title: the status's label followed by " - eftir skólum". */
  function Title(status: string): (t: string)
    ensures status in StatusLabels ==> t == StatusLabels[status] + " - eftir skólum"
    ensures status !in StatusLabels ==> t == status + " - eftir skólum"
  {
    StatusLabel(status) + " - eftir skólum"
  }

  /** `--color-${status.replace('_', '-')}`: only the first `_` becomes `-`. */
  function ColorVar(status: string): (c: string)
    ensures |c| == |"--color-"| + |status| && c[..8] == "--color-"
    ensures '_' !in status ==> c[8..] == status
    ensures '_' in status ==>
              c[8 + IndexOf(status, '_')] == '-'
              && forall j :: 0 <= j < |status| && j != IndexOf(status, '_') ==> c[8 + j] == status[j]
  {
    var r := ReplaceFirst(status, '_', '-');
    var c := "--color-" + r;
    assert c[8..] == r;
    c
  }

  /** The colour variable keeps every underscore of the status but the first. */
  lemma ColorVarUnderscores(status: string)
    requires '_' in status
    ensures Occurrences(ColorVar(status)[8..], '_') == Occurrences(status, '_') - 1
  {
    ReplaceFirstRemovesOne(status, '_', '-');
    assert ColorVar(status)[8..] == ReplaceFirst(status, '_', '-');
  }

  // ---------------------------------------------------------------------------
  // The breakdown by school
  // ---------------------------------------------------------------------------

  function SchoolBars(sorted: seq<Entry>, maxValue: int): (bars: seq<SchoolBar>)
    ensures |bars| == |sorted|
    ensures forall k :: 0 <= k < |bars| ==>
              bars[k] == SchoolBar(sorted[k].key, sorted[k].count, Width(sorted[k].count, maxValue))
  {
    if sorted == [] then []
    else [SchoolBar(sorted[0].key, sorted[0].count, Width(sorted[0].count, maxValue))]
         + SchoolBars(sorted[1..], maxValue)
  }

  /** The `[school, count]` pairs the bars were drawn from. */
  function SchoolsDrawn(bars: seq<SchoolBar>): (r: seq<Entry>)
    ensures |r| == |bars|
    ensures forall k :: 0 <= k < |r| ==> r[k] == Entry(bars[k].school, bars[k].count)
  {
    if bars == [] then [] else [Entry(bars[0].school, bars[0].count)] + SchoolsDrawn(bars[1..])
  }

  /** The count the widths are measured against: the first count of the entries sorted
      largest first, which is their largest count, and 0 when there are none. */
  function MaxValue(sorted: seq<Entry>): (m: int)
    ensures sorted == [] ==> m == 0
    ensures sorted != [] && (forall i, j :: 0 <= i < j < |sorted| ==> sorted[i].count >= sorted[j].count)
            ==> m == MaxBy(sorted, Count)
  {
    if sorted == [] then 0
    else
      FirstOfDescendingIsMax(sorted);
      sorted[0].count
  }

  /** `showActivityBreakdown(status)` once `activityData` is set: "Engin gögn" when the
      status has no per-school counts, otherwise the title and one bar per school,
      largest count first, widths against the first count. */
  function ShowBreakdown(data: ActivityResponse, status: string): (b: Breakdown)
    ensures b.NoData? <==> status !in data.countsBySchool
    ensures b.Breakdown? ==>
      && b.title == Title(status) && b.colorVar == ColorVar(status)
      && |b.bars| == |data.countsBySchool[status]|
  {
    if status !in data.countsBySchool then NoData
    else
      Breakdown(Title(status), ColorVar(status), BarsOf(data.countsBySchool[status]))
  }

  /** The breakdown is "Engin gögn" exactly when the status has no per-school data;
      otherwise it shows every school of the status once, counts never increasing, each
      width measured against the largest count. */
  lemma ShowBreakdownShows(data: ActivityResponse, status: string)
    ensures ShowBreakdown(data, status).NoData? <==> status !in data.countsBySchool
    ensures ShowBreakdown(data, status).Breakdown? ==>
      var b := ShowBreakdown(data, status);
      var entries := data.countsBySchool[status];
      && b.title == StatusLabel(status) + " - eftir skólum"
      && b.colorVar == ColorVar(status)
      && multiset(SchoolsDrawn(b.bars)) == multiset(entries)
      && (forall i, j :: 0 <= i < j < |b.bars| ==> b.bars[i].count >= b.bars[j].count)
      && (forall k :: 0 <= k < |b.bars| ==>
            b.bars[k].width == Width(b.bars[k].count, MaxBy(entries, Count)))
  {
    if status in data.countsBySchool {
      BarsOfSchools(data.countsBySchool[status]);
    }
  }

  /** The bars drawn for one status's schools, as `ShowBreakdown` draws them. */
  function BarsOf(entries: seq<Entry>): (bars: seq<SchoolBar>)
    ensures |bars| == |entries|
  {
    var sorted := SortByCountDesc(entries);
    SchoolBars(sorted, MaxValue(sorted))
  }

  /** The bars of one status's schools show each school once, largest count first, each
      width against the largest count. */
  lemma BarsOfSchools(entries: seq<Entry>)
    ensures var bars := BarsOf(entries);
      && multiset(SchoolsDrawn(bars)) == multiset(entries)
      && (forall i, j :: 0 <= i < j < |bars| ==> bars[i].count >= bars[j].count)
      && (forall k :: 0 <= k < |bars| ==> bars[k].width == Width(bars[k].count, MaxBy(entries, Count)))
  {
    var sorted := SortByCountDesc(entries);
    assert SchoolsDrawn(BarsOf(entries)) == sorted;
    if entries == [] {
      assert |sorted| == |multiset(sorted)| == |multiset(entries)| == 0;
    }
  }

  /** With non-negative counts every bar lies in [0, 100], and when the largest count is
      positive the first bar is full. */
  lemma BreakdownWidthsInRange(data: ActivityResponse, status: string)
    requires status in data.countsBySchool
    requires forall k :: 0 <= k < |data.countsBySchool[status]| ==> data.countsBySchool[status][k].count >= 0
    ensures var b := ShowBreakdown(data, status);
      && (forall k :: 0 <= k < |b.bars| ==> 0.0 <= b.bars[k].width <= 100.0)
      && (|b.bars| > 0 && b.bars[0].count > 0 ==> b.bars[0].width == 100.0)
  {
    BarWidthsInRange(data.countsBySchool[status]);
  }

  /** The widths of one status's bars, for non-negative counts. */
  lemma BarWidthsInRange(entries: seq<Entry>)
    requires forall k :: 0 <= k < |entries| ==> entries[k].count >= 0
    ensures var bars := BarsOf(entries);
      && (forall k :: 0 <= k < |bars| ==> 0.0 <= bars[k].width <= 100.0)
      && (|bars| > 0 && bars[0].count > 0 ==> bars[0].width == 100.0)
  {
    var sorted := SortByCountDesc(entries);
    var bars := BarsOf(entries);
    forall k | 0 <= k < |bars| ensures 0.0 <= bars[k].width <= 100.0 {
      assert sorted[k] in multiset(entries);
      var i :| 0 <= i < |entries| && entries[i] == sorted[k];
      assert 0 <= sorted[k].count <= sorted[0].count;
    }
  }

  // ---------------------------------------------------------------------------
  // The count cards
  // ---------------------------------------------------------------------------

  /** The statuses that have a count card. */
  const CardStatuses: set<string> := {"virkir", "ad_detta", "nylega_haettir", "haettir", "ovirkir"}

  /** The count a card shows for a status: the reply's count when it has one, otherwise 0. */
  function CountOrZero(counts: map<string, int>, status: string): (n: int)
    ensures status !in counts ==> n == 0
    ensures status in counts ==> n == counts[status]
  {
    if status in counts then counts[status] else 0
  }

  /** What the five count cards show for a reply. */
  function CardCounts(counts: map<string, int>): (cards: map<string, int>)
    ensures cards.Keys == CardStatuses
    ensures forall s :: s in cards ==> cards[s] == CountOrZero(counts, s)
  {
    map s | s in CardStatuses :: CountOrZero(counts, s)
  }

  /** A card shows zero exactly when the reply has no count for it or a zero count, and
      the reply's count otherwise; counts of other statuses do not matter. */
  lemma CardCountsDefault(counts: map<string, int>, other: map<string, int>, s: string)
    requires s in CardStatuses
    requires forall t :: t in CardStatuses ==> (t in counts <==> t in other)
    requires forall t :: t in CardStatuses && t in counts ==> counts[t] == other[t]
    ensures CardCounts(counts)[s] == 0 <==> s !in counts || counts[s] == 0
    ensures CardCounts(counts) == CardCounts(other)
  {
  }

  // ---------------------------------------------------------------------------
  // The page state
  // ---------------------------------------------------------------------------

  /** The page-global `activityData` with the elements it drives: the five count cards,
      the breakdown container and the selected card. */
  class ActivityPage {
    var activityData: Option<ActivityResponse>
    var cards: map<string, int>
    var breakdown: Option<Breakdown>
    var selected: Option<string>

    /** The cards show the accepted reply's counts, and nothing is drawn before a reply
        was accepted. */
    predicate Valid()
      reads this
    {
      && (activityData.Some? ==> cards == CardCounts(activityData.value.counts))
      && (breakdown.Some? ==> activityData.Some?)
      && (selected.Some? ==> activityData.Some?)
    }

    constructor()
      ensures Valid()
      ensures activityData.None? && breakdown.None? && selected.None?
    {
      activityData := None;
      cards := map[];
      breakdown := None;
      selected := None;
    }

    /** `loadActivityStatus` with the reply (None when there was none or the request
        threw): an error reply changes nothing; any other reply is kept and its counts
        shown on the cards. */
    method LoadActivityStatus(data: Option<ActivityResponse>)
      requires Valid()
      modifies this
      ensures Valid()
      ensures data.None? || data.value.status == "error" ==>
                activityData == old(activityData) && cards == old(cards)
      ensures data.Some? && data.value.status != "error" ==>
                activityData == data && cards == CardCounts(data.value.counts)
      ensures breakdown == old(breakdown) && selected == old(selected)
    {
      if data.None? || data.value.status == "error" {
        return;
      }
      activityData := data;
      cards := CardCounts(data.value.counts);
    }

    /** `showActivityBreakdown(status)`: does nothing before a reply was accepted. */
    method ShowActivityBreakdown(status: string)
      requires Valid()
      modifies this
      ensures Valid()
      ensures old(activityData).None? ==> breakdown == old(breakdown)
      ensures old(activityData).Some? ==>
                breakdown == Some(ShowBreakdown(old(activityData).value, status))
      ensures activityData == old(activityData) && cards == old(cards) && selected == old(selected)
    {
      if activityData.None? {
        return;
      }
      breakdown := Some(ShowBreakdown(activityData.value, status));
    }

    /** A click on the card of `status`: its breakdown is drawn and it becomes the one
        selected card. The handlers exist only once a reply was accepted. */
    method SelectCard(status: string)
      requires Valid() && activityData.Some?
      modifies this
      ensures Valid()
      ensures activityData == old(activityData) && cards == old(cards)
      ensures breakdown == Some(ShowBreakdown(activityData.value, status))
      ensures selected == Some(status)
    {
      ShowActivityBreakdown(status);
      selected := Some(status);
    }
  }
}
