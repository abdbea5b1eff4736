/**
 * Projection of the per-month dictionary onto the fixed twelve-month chart
 * axis (`allMonths.map(...)` in `fetchProgressData` of the StudentProgress component).
 */
module SeriesBuilder {
  import opened ProgressAggregator

  /** The chart axis: the Solar Hijri months in calendar order, starting with Farvardin. */
  const AllMonths: seq<string> := ["فروردین", "اردیبهشت", "خرداد", "تیر", "مرداد", "شهریور", "مهر", "آبان", "آذر", "دی", "بهمن", "اسفند"]

  /** One bar of the chart: `{month, percentage}`. */
  datatype SeriesPoint = SeriesPoint(month: string, percentage: int)

  /** `monthlyData[month]?.percentage || 0`: the stored percentage, or zero for a month without data. */
  function PercentageOf(monthlyData: map<string, MonthRecord>, month: string): int
  {
    if month in monthlyData then monthlyData[month].percentage else 0
  }

  /** One point per axis label, in axis order, whatever the dictionary holds. */
  function BuildSeries(monthlyData: map<string, MonthRecord>, allMonths: seq<string>): (r: seq<SeriesPoint>)
    ensures |r| == |allMonths|
    ensures forall k :: 0 <= k < |r| ==> r[k].month == allMonths[k]
  {
    seq(|allMonths|, k requires 0 <= k < |allMonths| =>
      SeriesPoint(allMonths[k], PercentageOf(monthlyData, allMonths[k])))
  }

  /** The axis has twelve distinct labels, so no two slots compete for one month. */
  lemma AllMonthsDistinct()
    ensures |AllMonths| == 12
    ensures forall i, j :: 0 <= i < j < |AllMonths| ==> AllMonths[i] != AllMonths[j]
  {
  }

  /** A slot holds the stored percentage of its month when there is one, and zero otherwise. */
  lemma SeriesSlot(monthlyData: map<string, MonthRecord>, allMonths: seq<string>, k: int)
    requires 0 <= k < |allMonths|
    ensures allMonths[k] in monthlyData ==>
      BuildSeries(monthlyData, allMonths)[k].percentage == monthlyData[allMonths[k]].percentage
    ensures allMonths[k] !in monthlyData ==> BuildSeries(monthlyData, allMonths)[k].percentage == 0
  {
  }

  /** With no data at all the series is twelve zero bars on the fixed axis. */
  lemma SeriesOfEmpty()
    ensures |BuildSeries(map[], AllMonths)| == 12
    ensures forall k :: 0 <= k < 12 ==>
      BuildSeries(map[], AllMonths)[k] == SeriesPoint(AllMonths[k], 0)
  {
  }

  /**
   * Only the axis months of the dictionary matter: two dictionaries that agree
   * on them give the same series, so keys off the axis neither appear nor shift slots.
   */
  lemma SeriesDependsOnAxisOnly(a: map<string, MonthRecord>, b: map<string, MonthRecord>, allMonths: seq<string>)
    requires forall k :: 0 <= k < |allMonths| ==> PercentageOf(a, allMonths[k]) == PercentageOf(b, allMonths[k])
    ensures BuildSeries(a, allMonths) == BuildSeries(b, allMonths)
  {
    var sa, sb := BuildSeries(a, allMonths), BuildSeries(b, allMonths);
    forall k | 0 <= k < |allMonths| ensures sa[k] == sb[k] {
      assert sa[k].percentage == PercentageOf(a, allMonths[k]);
    }
  }

  /** Dropping every key that is not an axis label leaves the series as it was. */
  lemma SeriesIgnoresOffAxisKeys(monthlyData: map<string, MonthRecord>, allMonths: seq<string>)
    ensures BuildSeries(monthlyData, allMonths) ==
      BuildSeries(map m | m in monthlyData && m in allMonths :: monthlyData[m], allMonths)
  {
    var onAxis := map m | m in monthlyData && m in allMonths :: monthlyData[m];
    forall k | 0 <= k < |allMonths|
      ensures PercentageOf(monthlyData, allMonths[k]) == PercentageOf(onAxis, allMonths[k])
    {
      assert allMonths[k] in allMonths;
    }
    SeriesDependsOnAxisOnly(monthlyData, onAxis, allMonths);
  }
}
