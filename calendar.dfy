/**
 * The fixed `persianMonths` table of the StudentProgress component and the
 * lookup `persianMonths[name] || name` applied to every evaluation record.
 */
module CalendarMapper {
  /** Gregorian month name to Solar Hijri month name, twelve entries. */
  const PersianMonths: map<string, string> := map[
    "January" := "دی",
    "February" := "بهمن",
    "March" := "اسفند",
    "April" := "فروردین",
    "May" := "اردیبهشت",
    "June" := "خرداد",
    "July" := "تیر",
    "August" := "مرداد",
    "September" := "شهریور",
    "October" := "مهر",
    "November" := "آبان",
    "December" := "آذر"
  ]

  /** The table's keys, in the order the table lists them. */
  const EnglishMonths: seq<string> := ["January", "February", "March", "April", "May", "June", "July", "August", "September", "October", "November", "December"]

  /**
   * Translates a known Gregorian month name; any other name passes through unchanged.
   * The value for each month (January to Dey, ..., December to Azar) is pinned down by
   * `ProgressPipeline.TranslateOntoAxis`, which places every table entry on the chart axis.
   */
  function Translate(monthName: string): (r: string)
    ensures monthName in PersianMonths ==> r in PersianMonths.Values
    ensures r != monthName <==> monthName in PersianMonths
  {
    if monthName in PersianMonths then PersianMonths[monthName] else monthName
  }

  /** The table has exactly the twelve Gregorian month names as keys. */
  lemma TableKeys()
    ensures |EnglishMonths| == 12
    ensures PersianMonths.Keys == set m | m in EnglishMonths
  {
  }

  /** Names outside the table are returned as they are. */
  lemma TranslatePassthrough(monthName: string)
    requires monthName !in EnglishMonths
    ensures Translate(monthName) == monthName
  {
    TableKeys();
  }

  /** No two Gregorian months share a Solar Hijri name. */
  lemma TranslateInjective(a: string, b: string)
    requires a in PersianMonths && b in PersianMonths && a != b
    ensures Translate(a) != Translate(b)
  {
  }
}
