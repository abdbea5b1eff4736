/**
 * The data path of `fetchProgressData` in the StudentProgress component,
 * from the decoded evaluation records to the twelve chart bars.
 */
module ProgressPipeline {
  import opened CalendarMapper
  import opened ProgressAggregator
  import opened SeriesBuilder

  /** The chart that the decoded records `data` produce. */
  function ChartOf(data: seq<RawRecord>): seq<SeriesPoint>
  {
    BuildSeries(Aggregated(Transform(data)), AllMonths)
  }

  /**
   * Translate, aggregate and project. Twelve bars on the fixed axis; a bar is
   * zero when no record translates to its month, and otherwise carries the
   * percentage of the first record with that month's latest period key.
   */
  method ProgressSeries(data: seq<RawRecord>) returns (chartData: seq<SeriesPoint>)
    ensures chartData == ChartOf(data)
    ensures |chartData| == 12
    ensures forall k :: 0 <= k < 12 ==> chartData[k].month == AllMonths[k]
    ensures forall k :: 0 <= k < 12 && !HasMonth(Transform(data), AllMonths[k]) ==>
      chartData[k].percentage == 0
    ensures forall k :: 0 <= k < 12 && HasMonth(Transform(data), AllMonths[k]) ==>
      exists j :: FirstLatest(Transform(data), AllMonths[k], j) &&
        chartData[k].percentage == data[j].positivePercentage
  {
    var transformedData := Transform(data);
    var monthlyData := Aggregate(transformedData);
    chartData := BuildSeries(monthlyData, AllMonths);
    forall k | 0 <= k < 12
      ensures !HasMonth(transformedData, AllMonths[k]) ==> chartData[k].percentage == 0
      ensures HasMonth(transformedData, AllMonths[k]) ==>
        exists j :: FirstLatest(transformedData, AllMonths[k], j) &&
          chartData[k].percentage == data[j].positivePercentage
    {
      SeriesSlot(monthlyData, AllMonths, k);
    }
  }

  /** Each Gregorian month lands on the axis nine slots on (mod 12): January on Dey, April on Farvardin. */
  lemma TranslateOntoAxis()
    ensures |EnglishMonths| == |AllMonths| == 12
    ensures forall i :: 0 <= i < 12 ==> Translate(EnglishMonths[i]) == AllMonths[(i + 9) % 12]
  {
  }

  /** The twelve translations are exactly the twelve axis labels. */
  lemma TranslationsCoverAxis()
    ensures (set i | 0 <= i < 12 :: Translate(EnglishMonths[i])) == set m | m in AllMonths
  {
    TranslateOntoAxis();
    var translated := set i | 0 <= i < 12 :: Translate(EnglishMonths[i]);
    forall m | m in AllMonths ensures m in translated {
      var k :| 0 <= k < 12 && AllMonths[k] == m;
      var i := (k + 3) % 12;
      assert (i + 9) % 12 == k;
      assert Translate(EnglishMonths[i]) == m;
    }
  }

  /** A record whose month translates off the axis does not change any bar. */
  lemma OffAxisRecordIgnored(data: seq<RawRecord>, u: RawRecord)
    requires Translate(u.monthName) !in AllMonths
    ensures ChartOf(data + [u]) == ChartOf(data)
  {
    var t, t' := Transform(data), Transform(data + [u]);
    var x := t'[|data|];
    assert t' == t + [x];
    assert (t + [x])[..|t|] == t;
    var before, after := Aggregated(t), Aggregated(t');
    assert after == Step(before, x);
    forall k | 0 <= k < |AllMonths|
      ensures PercentageOf(after, AllMonths[k]) == PercentageOf(before, AllMonths[k])
    {
      assert AllMonths[k] != x.month;
    }
    SeriesDependsOnAxisOnly(after, before, AllMonths);
  }

  /** An unknown name that is not itself an axis label never reaches the chart. */
  lemma UnknownNameIgnored(data: seq<RawRecord>, u: RawRecord)
    requires u.monthName !in EnglishMonths && u.monthName !in AllMonths
    ensures ChartOf(data + [u]) == ChartOf(data)
  {
    TranslatePassthrough(u.monthName);
    OffAxisRecordIgnored(data, u);
  }

  /** One record for March at 85%: the Esfand bar is 85 and every other bar is 0. */
  lemma SingleMarchRecord()
    ensures ChartOf([RawRecord("March", 85, 1)]) ==
      seq(12, k requires 0 <= k < 12 => SeriesPoint(AllMonths[k], if k == 11 then 85 else 0))
  {
  }

  /** Two records of one month with equal period keys: the first one's percentage is charted. */
  lemma EqualKeysKeepFirst()
    ensures ChartOf([RawRecord("January", 10, 5), RawRecord("January", 90, 5)])[9].percentage == 10
  {
    var first, second := MonthRecord(AllMonths[9], 10, 5), MonthRecord(AllMonths[9], 90, 5);
    assert Transform([RawRecord("January", 10, 5), RawRecord("January", 90, 5)]) == [first, second];
    assert [first, second][..1] == [first] && [first][..0] == [];
    assert Aggregated([first]) == map[AllMonths[9] := first];
    assert Aggregated([first, second]) == map[AllMonths[9] := first];
  }

  /** Two records of one month in either order: the later period key wins. */
  lemma LaterKeyWinsEitherOrder()
    ensures ChartOf([RawRecord("January", 40, 202301), RawRecord("January", 70, 202401)])[9].percentage == 70
    ensures ChartOf([RawRecord("January", 70, 202401), RawRecord("January", 40, 202301)])[9].percentage == 70
  {
    var older, newer := MonthRecord(AllMonths[9], 40, 202301), MonthRecord(AllMonths[9], 70, 202401);
    assert Transform([RawRecord("January", 40, 202301), RawRecord("January", 70, 202401)]) == [older, newer];
    assert Transform([RawRecord("January", 70, 202401), RawRecord("January", 40, 202301)]) == [newer, older];
    assert [older, newer][..1] == [older] && [older][..0] == [];
    assert [newer, older][..1] == [newer] && [newer][..0] == [];
    assert Aggregated([older]) == map[AllMonths[9] := older];
    assert Aggregated([newer]) == map[AllMonths[9] := newer];
    assert Aggregated([older, newer]) == map[AllMonths[9] := newer];
    assert Aggregated([newer, older]) == map[AllMonths[9] := newer];
  }
}
