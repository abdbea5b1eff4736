/**
 * The record transformation and the per-month reduction into `monthlyData`
 * performed by `fetchProgressData` of the StudentProgress component.
 */
module ProgressAggregator {
  import opened CalendarMapper

  /** One decoded evaluation record as the evaluation service returns it. */
  datatype RawRecord = RawRecord(monthName: string, positivePercentage: int, yearMonth: int)

  /** A record after translation of its month: `{month, percentage, yearMonth}`. */
  datatype MonthRecord = MonthRecord(month: string, percentage: int, yearMonth: int)

  /** The record `map`: the month name is translated, percentage and period key are kept. */
  function Transform(data: seq<RawRecord>): (r: seq<MonthRecord>)
    ensures |r| == |data|
    ensures forall k :: 0 <= k < |r| ==>
      r[k].month == Translate(data[k].monthName) &&
      r[k].percentage == data[k].positivePercentage &&
      r[k].yearMonth == data[k].yearMonth
  {
    seq(|data|, k requires 0 <= k < |data| =>
      MonthRecord(Translate(data[k].monthName), data[k].positivePercentage, data[k].yearMonth))
  }

  /** The comparator: an incoming record displaces the stored one only with a strictly later period key. */
  predicate Supersedes(item: MonthRecord, stored: MonthRecord)
  {
    stored.yearMonth < item.yearMonth
  }

  /** One step of the reduction: insert when the month is absent, replace when superseded, else keep. */
  function Step(monthlyData: map<string, MonthRecord>, item: MonthRecord): map<string, MonthRecord>
  {
    if item.month !in monthlyData || Supersedes(item, monthlyData[item.month])
    then monthlyData[item.month := item]
    else monthlyData
  }

  /** The left-to-right reduction of a record list, starting from the empty dictionary. */
  function Aggregated(records: seq<MonthRecord>): map<string, MonthRecord>
  {
    if records == [] then map[]
    else Step(Aggregated(records[..|records| - 1]), records[|records| - 1])
  }

  /** Some record carries month `month`. */
  ghost predicate HasMonth(records: seq<MonthRecord>, month: string)
  {
    exists i :: 0 <= i < |records| && records[i].month == month
  }

  /**
   * `records[j]` is the first record of month `month` with the latest period key:
   * no record of that month is later, and every earlier one is strictly older.
   */
  ghost predicate FirstLatest(records: seq<MonthRecord>, month: string, j: int)
  {
    && 0 <= j < |records|
    && records[j].month == month
    && (forall i :: 0 <= i < |records| && records[i].month == month ==> records[i].yearMonth <= records[j].yearMonth)
    && (forall i :: 0 <= i < j && records[i].month == month ==> records[i].yearMonth < records[j].yearMonth)
  }

  /** The first latest record of a month is unique, so the tie-break is deterministic. */
  lemma FirstLatestUnique(records: seq<MonthRecord>, month: string, j1: int, j2: int)
    requires FirstLatest(records, month, j1) && FirstLatest(records, month, j2)
    ensures j1 == j2
  {
  }

  /** Appending a record of another month leaves a month's first latest record where it was. */
  lemma FirstLatestExtendOther(records: seq<MonthRecord>, x: MonthRecord, month: string, j: int)
    requires FirstLatest(records, month, j) && x.month != month
    ensures FirstLatest(records + [x], month, j)
  {
    var rs := records + [x];
    forall i | 0 <= i < |rs| && rs[i].month == month
      ensures rs[i].yearMonth <= rs[j].yearMonth
    {
      assert i < |records| && rs[i] == records[i];
    }
  }

  /**
   * What the reduction computes, independently of how: exactly the months that
   * occur have an entry, and each entry is that month's first latest record.
   */
  lemma {:induction false} AggregatedCharacterised(records: seq<MonthRecord>)
    ensures forall month :: month in Aggregated(records) <==> HasMonth(records, month)
    ensures forall month :: month in Aggregated(records) ==>
      exists j :: FirstLatest(records, month, j) && Aggregated(records)[month] == records[j]
    decreases |records|
  {
    if records != [] {
      var n := |records| - 1;
      var prefix, x := records[..n], records[n];
      assert records == prefix + [x];
      AggregatedCharacterised(prefix);
      var before := Aggregated(prefix);
      var after := Aggregated(records);
      assert after == Step(before, x);
      forall month | HasMonth(records, month)
        ensures month in after
      {
        var i :| 0 <= i < |records| && records[i].month == month;
        if i < n {
          assert prefix[i] == records[i];
          assert HasMonth(prefix, month);
        }
      }
      forall month | month in after
        ensures HasMonth(records, month)
        ensures exists j :: FirstLatest(records, month, j) && after[month] == records[j]
      {
        if month != x.month {
          assert month in before;
          var j :| FirstLatest(prefix, month, j) && before[month] == prefix[j];
          FirstLatestExtendOther(prefix, x, month, j);
          assert after[month] == records[j];
        } else if month !in before {
          assert !HasMonth(prefix, month);
          forall i | 0 <= i < n
            ensures records[i].month != month
          {
            assert prefix[i] == records[i];
          }
          assert FirstLatest(records, month, n);
        } else {
          var j :| FirstLatest(prefix, month, j) && before[month] == prefix[j];
          assert prefix[j] == records[j];
          forall i | 0 <= i < n && records[i].month == month
            ensures records[i].yearMonth <= records[j].yearMonth
          {
            assert prefix[i] == records[i];
          }
          if Supersedes(x, before[month]) {
            assert after[month] == records[n];
            assert FirstLatest(records, month, n);
          } else {
            assert after[month] == records[j];
            assert FirstLatest(records, month, j);
          }
        }
      }
    }
  }

  /** Every stored record is one of the inputs, filed under its own month. */
  lemma AggregatedFromInput(records: seq<MonthRecord>, month: string)
    requires month in Aggregated(records)
    ensures Aggregated(records)[month] in records
    ensures Aggregated(records)[month].month == month
  {
    AggregatedCharacterised(records);
  }

  /** The stored record of a month is at least as recent as every input record of that month. */
  lemma AggregatedLatest(records: seq<MonthRecord>, i: int)
    requires 0 <= i < |records|
    ensures records[i].month in Aggregated(records)
    ensures records[i].yearMonth <= Aggregated(records)[records[i].month].yearMonth
  {
    AggregatedCharacterised(records);
    assert HasMonth(records, records[i].month);
  }

  /** After one more record: a record whose period key is not strictly later than the stored one changes nothing. */
  lemma AggregatedKeepsStored(records: seq<MonthRecord>, x: MonthRecord)
    requires x.month in Aggregated(records)
    requires x.yearMonth <= Aggregated(records)[x.month].yearMonth
    ensures Aggregated(records + [x]) == Aggregated(records)
  {
    assert (records + [x])[..|records|] == records;
  }

  /** After one more record: a record of an absent month, or with a strictly later period key, is stored. */
  lemma AggregatedStoresNewer(records: seq<MonthRecord>, x: MonthRecord)
    requires x.month !in Aggregated(records) || Aggregated(records)[x.month].yearMonth < x.yearMonth
    ensures Aggregated(records + [x]) == Aggregated(records)[x.month := x]
  {
    assert (records + [x])[..|records|] == records;
  }

  /** No two distinct records of one month share a period key. */
  ghost predicate DistinctPeriods(records: seq<MonthRecord>)
  {
    forall i, j ::
      (0 <= i < |records| && 0 <= j < |records| &&
       records[i].month == records[j].month && records[i].yearMonth == records[j].yearMonth) ==>
      records[i] == records[j]
  }

  /** Two record lists with the same elements mention the same months. */
  lemma SameMonths(records: seq<MonthRecord>, reordered: seq<MonthRecord>, month: string)
    requires forall r :: r in records <==> r in reordered
    ensures HasMonth(records, month) <==> HasMonth(reordered, month)
  {
    if HasMonth(records, month) {
      var i :| 0 <= i < |records| && records[i].month == month;
      assert records[i] in reordered;
      var i' :| 0 <= i' < |reordered| && reordered[i'] == records[i];
    }
    if HasMonth(reordered, month) {
      var i :| 0 <= i < |reordered| && reordered[i].month == month;
      assert reordered[i] in records;
      var i' :| 0 <= i' < |records| && records[i'] == reordered[i];
    }
  }

  /** Without ties, two record lists with the same elements have the same latest record per month. */
  lemma SameLatest(records: seq<MonthRecord>, reordered: seq<MonthRecord>, month: string, j: int, j': int)
    requires forall r :: r in records <==> r in reordered
    requires DistinctPeriods(records)
    requires FirstLatest(records, month, j) && FirstLatest(reordered, month, j')
    ensures records[j] == reordered[j']
  {
    assert records[j] in reordered;
    var p :| 0 <= p < |reordered| && reordered[p] == records[j];
    assert reordered[j'] in records;
    var q :| 0 <= q < |records| && records[q] == reordered[j'];
    assert records[q].yearMonth == records[j].yearMonth;
  }

  /** Without ties, arrival order does not matter: any reordering of the input gives the same dictionary. */
  lemma AggregatedOrderIndependent(records: seq<MonthRecord>, reordered: seq<MonthRecord>)
    requires multiset(records) == multiset(reordered)
    requires DistinctPeriods(records)
    ensures Aggregated(records) == Aggregated(reordered)
  {
    forall r ensures r in records <==> r in reordered {
      assert r in records <==> r in multiset(records);
      assert r in reordered <==> r in multiset(reordered);
    }
    AggregatedCharacterised(records);
    AggregatedCharacterised(reordered);
    var a, b := Aggregated(records), Aggregated(reordered);
    forall month ensures month in a <==> month in b {
      SameMonths(records, reordered, month);
    }
    forall month | month in a
      ensures a[month] == b[month]
    {
      var j :| FirstLatest(records, month, j) && a[month] == records[j];
      var j' :| FirstLatest(reordered, month, j') && b[month] == reordered[j'];
      SameLatest(records, reordered, month, j, j');
    }
    assert a.Keys == b.Keys;
  }

  /**
   * The `forEach` over the translated records that fills `monthlyData`;
   * the result is the reduction `Aggregated`, characterised by its keys and
   * by the first latest record of each month.
   */
  method Aggregate(transformedData: seq<MonthRecord>) returns (monthlyData: map<string, MonthRecord>)
    ensures monthlyData == Aggregated(transformedData)
    ensures forall month :: month in monthlyData <==> HasMonth(transformedData, month)
    ensures forall month :: month in monthlyData ==>
      exists j :: FirstLatest(transformedData, month, j) && monthlyData[month] == transformedData[j]
  {
    monthlyData := map[];
    var i := 0;
    while i < |transformedData|
      invariant 0 <= i <= |transformedData|
      invariant monthlyData == Aggregated(transformedData[..i])
    {
      var item := transformedData[i];
      var monthKey := item.month;
      if monthKey !in monthlyData || monthlyData[monthKey].yearMonth < item.yearMonth {
        monthlyData := monthlyData[monthKey := item];
      }
      assert transformedData[..i + 1][..i] == transformedData[..i];
      i := i + 1;
    }
    assert transformedData[..i] == transformedData;
    AggregatedCharacterised(transformedData);
  }
}
