/**
  The horizontal bar charts of the staff dashboard (by school, by grade, and
  the activity breakdown): a count per key, the keys that start with `_` hidden,
  each bar's width a share of the largest count and each label's percentage a
  rounded share of the total.
*/
module BarChart {
  import opened JsSemantics
  import opened Sequences

  /** One `[key, count]` pair of `Object.entries(data)`. */
  datatype Entry = Entry(key: string, count: int)

  /** What one bar shows: its label, its count, its width in percent of the
      chart, and the percentage of the total written next to it. */
  datatype Bar = Bar(name: string, count: int, width: real, pct: int)

  function Count(e: Entry): int { e.count }

  /** Sorting by this key puts the largest counts first (`(a, b) => b[1] - a[1]`). */
  function NegCount(e: Entry): int { -e.count }

  /** `key.startsWith('_')`: bookkeeping keys such as `_month` are not drawn. */
  predicate IsHidden(key: string)
  {
    |key| > 0 && key[0] == '_'
  }

  /** The entries a chart draws: those whose key does not start with an underscore, in
      their original order. */
  function Visible(entries: seq<Entry>): (r: seq<Entry>)
    ensures forall k :: 0 <= k < |r| ==> !IsHidden(r[k].key)
    ensures forall e :: multiset(r)[e] == if IsHidden(e.key) then 0 else multiset(entries)[e]
  {
    if entries == [] then []
    else
      assert entries == [entries[0]] + entries[1..];
      var rest := Visible(entries[1..]);
      if IsHidden(entries[0].key) then rest else [entries[0]] + rest
  }

  /** `entries.sort((a, b) => b[1] - a[1])`: counts never increase along the result,
      which holds the same entries, so its first count is the largest. */
  function SortByCountDesc(entries: seq<Entry>): (r: seq<Entry>)
    ensures multiset(r) == multiset(entries) && |r| == |entries|
    ensures forall i, j :: 0 <= i < j < |r| ==> r[i].count >= r[j].count
    ensures r != [] ==> r[0].count == MaxBy(entries, Count)
  {
    var r := SortBy(entries, NegCount);
    assert forall i, j :: 0 <= i < j < |r| ==> NegCount(r[i]) <= NegCount(r[j]);
    if r == [] then r
    else
      FirstOfDescendingIsMax(r);
      MaxByPermutation(r, entries, Count);
      r
  }

  /** In a non-empty list whose counts never increase, the first count is the largest. */
  lemma FirstOfDescendingIsMax(r: seq<Entry>)
    requires r != []
    ensures (forall i, j :: 0 <= i < j < |r| ==> r[i].count >= r[j].count) ==> r[0].count == MaxBy(r, Count)
  {
    var k :| 0 <= k < |r| && Count(r[k]) == MaxBy(r, Count);
    assert Count(r[0]) <= MaxBy(r, Count);
    if k > 0 && forall i, j :: 0 <= i < j < |r| ==> r[i].count >= r[j].count {
      assert r[0].count >= r[k].count;
    }
  }

  /** A bar's width in percent: its count as a share of the largest count, or 0 when the
      largest count is not positive; computed exactly, without floating point. */
  function Width(count: int, maxValue: int): (w: real)
    ensures maxValue <= 0 ==> w == 0.0
    ensures maxValue > 0 ==> w * (maxValue as real) == 100.0 * (count as real)
    ensures maxValue > 0 && 0 <= count <= maxValue ==> 0.0 <= w <= 100.0
    ensures maxValue > 0 && count == maxValue ==> w == 100.0
  {
    if maxValue > 0 then
      var share := count as real / maxValue as real;
      var w := share * 100.0;
      assert share * (maxValue as real) == count as real;
      assert w * (maxValue as real) == 100.0 * (count as real);
      assert count == maxValue ==> share == 1.0;
      assert 0 <= count <= maxValue ==> 100.0 * (count as real) <= 100.0 * (maxValue as real);
      w
    else 0.0
  }

  /** A bar's percentage of the total: the nearest integer to 100 * count / total, halves
      rounded up as `Math.round` rounds them, or 0 when the total is not positive;
      computed exactly. */
  function RoundedPercent(count: int, total: int): (p: int)
    ensures total <= 0 ==> p == 0
    ensures total > 0 ==> 2 * total * p - total <= 200 * count < 2 * total * p + total
    ensures total > 0 && 0 <= count <= total ==> 0 <= p <= 100
  {
    if total > 0 then
      var p := (200 * count + total) / (2 * total);
      DivBounds(200 * count + total, 2 * total);
      if 0 <= count <= total then
        QuotientBetween(200 * count + total, 2 * total, 0, 100);
        p
      else p
    else 0
  }

  lemma DivBounds(x: int, d: int)
    requires d > 0
    ensures d * (x / d) <= x < d * (x / d) + d
  {
  }

  lemma MulMonotone(d: int, a: int, b: int)
    requires d >= 0 && a <= b
    ensures d * a <= d * b
  {
    assert d * b - d * a == d * (b - a);
  }

  /** A quotient lies in [lo, hi] when the dividend lies in [d * lo, d * (hi + 1)). */
  lemma QuotientBetween(x: int, d: int, lo: int, hi: int)
    requires d > 0 && d * lo <= x < d * (hi + 1)
    ensures lo <= x / d <= hi
  {
    var q := x / d;
    DivBounds(x, d);
    if q < lo {
      MulMonotone(d, q + 1, lo);
    }
    if q > hi {
      MulMonotone(d, hi + 1, q);
    }
  }

  /** Turns the sorted entries into bars against the given largest count and total. */
  function ToBars(sorted: seq<Entry>, maxValue: int, total: int): (bars: seq<Bar>)
    ensures |bars| == |sorted|
    ensures forall k :: 0 <= k < |bars| ==>
              bars[k] == Bar(sorted[k].key, sorted[k].count,
                             Width(sorted[k].count, maxValue),
                             RoundedPercent(sorted[k].count, total))
  {
    if sorted == [] then []
    else
      [Bar(sorted[0].key, sorted[0].count, Width(sorted[0].count, maxValue),
           RoundedPercent(sorted[0].count, total))]
      + ToBars(sorted[1..], maxValue, total)
  }

  /** The `[key, count]` pairs the bars were drawn from. */
  function Drawn(bars: seq<Bar>): (r: seq<Entry>)
    ensures |r| == |bars|
    ensures forall k :: 0 <= k < |r| ==> r[k] == Entry(bars[k].name, bars[k].count)
  {
    if bars == [] then [] else [Entry(bars[0].name, bars[0].count)] + Drawn(bars[1..])
  }

  /** The bars show exactly the given entries, none hidden, with widths against the
      largest count and percentages of the total. */
  predicate ShowsEntries(bars: seq<Bar>, visible: seq<Entry>)
    requires visible != []
  {
    && multiset(Drawn(bars)) == multiset(visible)
    && forall k :: 0 <= k < |bars| ==>
         && !IsHidden(bars[k].name)
         && bars[k].width == Width(bars[k].count, MaxBy(visible, Count))
         && bars[k].pct == RoundedPercent(bars[k].count, SumBy(visible, Count))
  }

  /** Bars drawn from any rearrangement of the visible entries, against their largest
      count and their total, show those entries in the drawing order. */
  lemma BarsOfEntries(entries: seq<Entry>, visible: seq<Entry>, maxValue: int, total: int)
    requires visible != [] && multiset(entries) == multiset(visible)
    requires forall k :: 0 <= k < |visible| ==> !IsHidden(visible[k].key)
    requires maxValue == MaxBy(visible, Count) && total == SumBy(visible, Count)
    ensures Drawn(ToBars(entries, maxValue, total)) == entries
    ensures ShowsEntries(ToBars(entries, maxValue, total), visible)
  {
    var bars := ToBars(entries, maxValue, total);
    assert Drawn(bars) == entries;
    NoneHidden(entries, visible);
  }

  /** A rearrangement of entries without hidden keys has none either. */
  lemma NoneHidden(entries: seq<Entry>, visible: seq<Entry>)
    requires multiset(entries) == multiset(visible)
    requires forall k :: 0 <= k < |visible| ==> !IsHidden(visible[k].key)
    ensures forall k :: 0 <= k < |entries| ==> !IsHidden(entries[k].key)
  {
    forall k | 0 <= k < |entries| ensures !IsHidden(entries[k].key) {
      assert entries[k] in multiset(visible);
      var i :| 0 <= i < |visible| && visible[i] == entries[k];
    }
  }

  /** Against the largest count, every bar of a non-negative count lies in [0, 100]
      and the bars of the largest count are full. */
  lemma {:induction false} WidthsAgainstMax(entries: seq<Entry>)
    requires entries != []
    requires MaxBy(entries, Count) > 0
    ensures forall k :: 0 <= k < |entries| && entries[k].count >= 0 ==>
              0.0 <= Width(entries[k].count, MaxBy(entries, Count)) <= 100.0
    ensures forall k :: 0 <= k < |entries| && entries[k].count == MaxBy(entries, Count) ==>
              Width(entries[k].count, MaxBy(entries, Count)) == 100.0
    ensures exists k :: 0 <= k < |entries| && Width(entries[k].count, MaxBy(entries, Count)) == 100.0
  {
    var m := MaxBy(entries, Count);
    forall k | 0 <= k < |entries| ensures entries[k].count <= m {
      assert Count(entries[k]) <= m;
    }
    var k :| 0 <= k < |entries| && Count(entries[k]) == m;
    assert Width(entries[k].count, m) == 100.0;
  }

  /** For non-negative counts the rounded percentages of a chart lie in [0, 100]. */
  lemma {:induction false} PercentsInRange(entries: seq<Entry>, k: nat)
    requires k < |entries|
    requires forall i :: 0 <= i < |entries| ==> entries[i].count >= 0
    ensures 0 <= entries[k].count <= SumBy(entries, Count)
    ensures 0 <= RoundedPercent(entries[k].count, SumBy(entries, Count)) <= 100
  {
    SumByRemove(entries, k, Count);
    var rest := entries[..k] + entries[k + 1..];
    assert forall i :: 0 <= i < |rest| ==> rest[i] in entries;
  }
}
