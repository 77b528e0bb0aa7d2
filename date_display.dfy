/**
 * The `formatDate` helper that the asset-detail page and the upcoming-maintenance page each
 * carry, on its date-only path (`includeTime` and `includeUTC` both false): the text is read
 * as `new Date(text + 'T00:00:00Z')` and shown as the date part of `toISOString()`.
 */
module DateDisplay {
  import opened Wrappers
  import opened Dates

  /**
   * `formatDate(text)`: 'N/A' for a missing or empty text; otherwise the ISO date of the
   * parsed value, and when the text is no date `toISOString` throws and the catch hands the
   * text back. The 'Invalid Date' return sits after the throwing call and is never reached.
   */
  function FormatDate(text: Option<string>): (r: string)
    ensures text.None? || text == Some("") ==> r == "N/A"
    ensures text.Some? && text.value != "" && ParseIsoDate(text.value).None? ==> r == text.value
    ensures text.Some? && text.value != "" && ParseIsoDate(text.value).Some? ==> MatchesDatePattern(r)
  {
    if text.None? || text.value == "" then "N/A"
    else match ParseIsoDate(text.value)
      case Some(d) => FormatIsoDate(d)
      case None => text.value
  }

  /** A date in the YYYY-MM-DD form is shown exactly as it is written. */
  lemma FormatDateKeepsDates(s: string)
    requires MatchesDatePattern(s) && ParseIsoDate(s).Some?
    ensures FormatDate(Some(s)) == s
  {
    FormatParseIso(s);
  }

  /** 'Invalid Date' is shown only for the text 'Invalid Date' itself. */
  lemma NeverInvalidDate(text: Option<string>)
    ensures FormatDate(text) == "Invalid Date" ==> text == Some("Invalid Date")
  {
  }

  /** Formatting what was shown shows it again. */
  lemma FormatDateIdempotent(text: Option<string>)
    ensures FormatDate(Some(FormatDate(text))) == FormatDate(text)
  {
    if text.Some? && text.value != "" && ParseIsoDate(text.value).Some? {
      ParseFormatIso(ParseIsoDate(text.value).value);
    }
  }

  /** A date as the server renders it (years 1000 to 9999) is shown unchanged. */
  lemma ShowsServerDates(d: Date)
    requires Valid(d) && 1000 <= d.year <= 9999
    ensures FormatDate(Some(FormatUtcDate(d))) == FormatUtcDate(d)
  {
    FormatUtcIsIso(d);
    ParseFormatIso(d);
  }
}
