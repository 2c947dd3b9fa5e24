/** date_format.py: the same timestamp text as `format_timestamp`, at a
    fixed offset of five hours east of UTC. */
module DateFormat {
  import CivilTime
  import Services

  const OFFSET_HOURS := 5

  /** `get_date(t)`: `format_timestamp` with TIMEZONE fixed at five hours east of UTC. */
  function GetDate(timestamp: int): string {
    CivilTime.Render(Services.LocalSeconds(timestamp, OFFSET_HOURS))
  }

  /** For non-negative timestamps up to the end of year 9999 the text is
      `DD.MM.YYYY, HH:MM`: month 1-12, a day that exists in that month of
      that year, hour 0-23 and minute 0-59, all read back from the text. */
  lemma GetDateShape(timestamp: int)
    requires timestamp >= 0
    requires CivilTime.UtcDateTime(timestamp + 18000).date.year <= 9999
    ensures CivilTime.HasRenderedShape(GetDate(timestamp))
    ensures CivilTime.ParseRendered(GetDate(timestamp)) == CivilTime.UtcDateTime(timestamp + 18000)
    ensures CivilTime.ValidDateTime(CivilTime.UtcDateTime(timestamp + 18000))
  {
    var s := timestamp + 18000;
    assert Services.LocalSeconds(timestamp, OFFSET_HOURS) == s;
    CivilTime.YearFromDayNumber(s / CivilTime.SECONDS_PER_DAY);
    CivilTime.RenderRoundTrip(s);
  }

  /** Timestamps in the same shifted minute give the same text. */
  lemma GetDateSameMinute(t1: int, t2: int)
    requires (t1 + 18000) / 60 == (t2 + 18000) / 60
    ensures GetDate(t1) == GetDate(t2)
  {
    CivilTime.SameMinuteSameRender(Services.LocalSeconds(t1, OFFSET_HOURS), Services.LocalSeconds(t2, OFFSET_HOURS));
  }

  /** Adding 86400 seconds moves to the next calendar day, same HH:MM. */
  lemma GetDateNextDay(timestamp: int)
    ensures var t := CivilTime.UtcDateTime(timestamp + 18000);
            GetDate(timestamp + 86400)
            == CivilTime.Format(CivilTime.DateTime(CivilTime.NextDate(t.date), t.hour, t.minute))
  {
    assert Services.LocalSeconds(timestamp, OFFSET_HOURS) == timestamp + 18000;
    assert Services.LocalSeconds(timestamp + 86400, OFFSET_HOURS) == timestamp + 18000 + 86400;
    CivilTime.RenderNextDay(timestamp + 18000);
  }
}
