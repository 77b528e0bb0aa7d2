/**
 * The upcoming-maintenance page (`UpcomingMaintenancesPage`): the weekday shown beside each
 * next date, the decision to sign the user out after a failed load, and the load itself.
 * The fetch (`fetchUpcomingMaintenancesForPanel`) is outside the model: the load receives its
 * outcome, an error carrying the message the API client throws (the server's `error` text).
 */
module UpcomingPage {
  import opened Wrappers
  import opened Text
  import opened Dates
  import opened Messages
  import opened Phrases
  import AuthContext

  const DayNames: seq<string> := ["Sunday", "Monday", "Tuesday", "Wednesday", "Thursday", "Friday", "Saturday"]

  /**
   * `getDayOfWeek(text)`: 'N/A' for a missing or empty text; otherwise the text is split on
   * '-', the first three parts are read with `Number` as year, month and day, and the weekday
   * of `Date.UTC(year, month - 1, day)` is named; a missing or NaN part, or a time value out
   * of range, gives 'Invalid Date'.
   */
  function GetDayOfWeek(text: Option<string>): (r: string)
    ensures text.None? || text == Some("") ==> r == "N/A"
    ensures text.Some? && text.value != "" ==> r in DayNames || r == "Invalid Date"
  {
    if text.None? || text.value == "" then "N/A"
    else
      var parts := Split(text.value, '-');
      if |parts| < 3 then "Invalid Date"
      else NameOfDay(NumberOf(parts[0]), NumberOf(parts[1]), NumberOf(parts[2]))
  }

  /** The weekday name of `new Date(Date.UTC(year, month - 1, day))`, 'Invalid Date' when a part is NaN or the time value is out of range. */
  function NameOfDay(year: Option<int>, month: Option<int>, day: Option<int>): (r: string)
    ensures r in DayNames || r == "Invalid Date"
    ensures year.None? || month.None? || day.None? ==> r == "Invalid Date"
  {
    if year.None? || month.None? || day.None? then "Invalid Date"
    else match DateUtc(year.value, month.value - 1, day.value)
      case Some(k) => DayNames[WeekDay(k)]
      case None => "Invalid Date"
  }

  /** The YYYY-MM-DD text of a date splits on '-' into its three digit groups. */
  lemma IsoDateParts(d: Date)
    requires Valid(d) && 0 <= d.year <= 9999
    ensures Split(FormatIsoDate(d), '-') == [FixedDigits(d.year, 4), FixedDigits(d.month, 2), FixedDigits(d.day, 2)]
  {
    var a, b, c := FixedDigits(d.year, 4), FixedDigits(d.month, 2), FixedDigits(d.day, 2);
    assert FormatIsoDate(d) == Join([a, b, c], '-') by {
      assert Join([a, b, c], '-') == a + JoinTail([b, c], '-');
      assert JoinTail([b, c], '-') == ['-'] + b + JoinTail([c], '-');
      assert JoinTail([c], '-') == ['-'] + c + JoinTail([], '-');
    }
    assert '-' !in a && '-' !in b && '-' !in c by {
      assert forall i | 0 <= i < 4 :: IsDigit(a[i]);
      assert forall i | 0 <= i < 2 :: IsDigit(b[i]) && IsDigit(c[i]);
    }
    SplitJoin([a, b, c], '-');
  }

  /** `Number` reads a digit group back as the value it was written from. */
  lemma NumberOfFixed(n: nat, w: nat)
    requires 0 < w && n < Pow10(w)
    ensures NumberOf(FixedDigits(n, w)) == Some(n)
  {
    NumberOfDigits(FixedDigits(n, w));
    FixedDigitsValue(n, w);
  }

  /** `Number` reads the three parts of a YYYY-MM-DD text back as the year, month and day. */
  lemma IsoDateNumbers(d: Date)
    requires Valid(d) && 0 <= d.year <= 9999
    ensures var parts := Split(FormatIsoDate(d), '-');
      && |parts| == 3
      && NumberOf(parts[0]) == Some(d.year)
      && NumberOf(parts[1]) == Some(d.month)
      && NumberOf(parts[2]) == Some(d.day)
  {
    IsoDateParts(d);
    assert Pow10(2) == 100;
    assert Pow10(4) == 10000;
    NumberOfFixed(d.year, 4);
    NumberOfFixed(d.month, 2);
    NumberOfFixed(d.day, 2);
  }

  /** The YYYY-MM-DD text of a date from year 100 on is named by the weekday of its day number. */
  lemma DayOfWeekOfDate(d: Date)
    requires Valid(d) && 100 <= d.year <= 9999
    ensures GetDayOfWeek(Some(FormatIsoDate(d))) == DayNames[WeekDay(DayNumber(d))]
  {
    IsoDateNumbers(d);
    DateUtcOfDate(d);
    DayOfWeekOfParts(FormatIsoDate(d), d.year, d.month, d.day, DayNumber(d));
  }

  /** A text whose first three '-'-separated parts read as a year, month and day valid for `Date.UTC` is named by that day's weekday. */
  lemma DayOfWeekOfParts(text: string, year: int, month: int, day: int, k: int)
    requires |Split(text, '-')| >= 3
    requires NumberOf(Split(text, '-')[0]) == Some(year)
    requires NumberOf(Split(text, '-')[1]) == Some(month)
    requires NumberOf(Split(text, '-')[2]) == Some(day)
    requires DateUtc(year, month - 1, day) == Some(k)
    ensures GetDayOfWeek(Some(text)) == DayNames[WeekDay(k)]
  {
    NameOfValidDay(year, month, day, k);
  }

  /** A day `Date.UTC` can place is named by its weekday. */
  lemma NameOfValidDay(year: int, month: int, day: int, k: int)
    requires DateUtc(year, month - 1, day) == Some(k)
    ensures NameOfDay(Some(year), Some(month), Some(day)) == DayNames[WeekDay(k)]
  {
    var y, m, d := Some(year), Some(month), Some(day);
    assert y.value == year && m.value == month && d.value == day;
  }

  /** The day after a date is named by the next weekday, Saturday wrapping to Sunday. */
  lemma NextDayNextName(d: Date)
    requires Valid(d) && 100 <= d.year && NextDay(d).year <= 9999
    ensures var today := WeekDay(DayNumber(d));
      GetDayOfWeek(Some(FormatIsoDate(NextDay(d)))) == DayNames[(today + 1) % 7]
  {
    DayOfWeekOfDate(d);
    DayOfWeekOfDate(NextDay(d));
    NextDayNumber(d);
  }

  // ---------------------------------------------------------------- forced logout

  /** 'Token inválido' with its UTF-8 bytes read as Latin-1, as this page writes it. */
  const GarbledTokenInvalid := "Token invÃ¡lido"

  /** What the profile client throws when the server's answer carries no `error`. */
  const ProfileFetchFailed := "Failed to fetch user profile"

  /** Whether a failed load signs the user out. */
  predicate ForcesLogout(message: string) {
    Includes(message, GarbledTokenInvalid) || Includes(message, TokenRequired) || Includes(message, ProfileFetchFailed)
  }

  /** A message without 'Ã' signs out exactly when it names a missing token or a failed profile fetch. */
  lemma GarbledNeverMatches(message: string)
    requires 'Ã' !in message
    ensures ForcesLogout(message) <==> Includes(message, TokenRequired) || Includes(message, ProfileFetchFailed)
  {
    assert GarbledTokenInvalid[9] == 'Ã';
    Lacks(message, GarbledTokenInvalid, 'Ã');
  }

  lemma InvalidTokenLacksGarbled()
    ensures !Includes(TokenInvalid, GarbledTokenInvalid)
  {
    assert GarbledTokenInvalid[9] == 'Ã';
    Lacks(TokenInvalid, GarbledTokenInvalid, 'Ã');
  }

  lemma InvalidTokenLacksRequired()
    ensures !Includes(TokenInvalid, TokenRequired)
  {
    assert TokenRequired[18] == 'q';
    Lacks(TokenInvalid, TokenRequired, 'q');
  }

  lemma InvalidTokenLacksProfile()
    ensures !Includes(TokenInvalid, ProfileFetchFailed)
  {
    assert ProfileFetchFailed[0] == 'F';
    Lacks(TokenInvalid, ProfileFetchFailed, 'F');
  }

  /** The server's answer to a rejected token, 'Token inválido', leaves the user signed in; a missing token signs out. */
  lemma InvalidTokenKeepsSession()
    ensures !ForcesLogout(TokenInvalid)
    ensures ForcesLogout(TokenRequired)
  {
    InvalidTokenLacksGarbled();
    InvalidTokenLacksRequired();
    InvalidTokenLacksProfile();
    Holds(TokenRequired, "", TokenRequired, "");
  }

  // ---------------------------------------------------------------- the page

  class Page<Item> {
    var upcoming: seq<Item>
    var isLoadingPage: bool
    var pageError: Option<string>

    /**
     * `loadUpcomingMaintenances`, with `fetched` the outcome of the fetch: nothing happens
     * unless the session is signed in with a token; then the list or the error is recorded,
     * a failure whose message `ForcesLogout` accepts logs the session out, and loading ends.
     */
    method Load(auth: AuthContext.Provider, fetched: Result<seq<Item>>)
      modifies this, auth
      ensures !old(auth.isAuthenticated) || !AuthContext.HasToken(old(auth.State())) ==>
        upcoming == old(upcoming) && isLoadingPage == old(isLoadingPage) && pageError == old(pageError)
        && auth.State() == old(auth.State())
      ensures old(auth.isAuthenticated) && AuthContext.HasToken(old(auth.State())) ==>
        && !isLoadingPage
        && (fetched.Ok? ==> upcoming == fetched.value && pageError == None && auth.State() == old(auth.State()))
        && (fetched.Err? ==> upcoming == old(upcoming) && pageError == Some(fetched.error))
        && (fetched.Err? && ForcesLogout(fetched.error) ==> auth.State() == AuthContext.LoggedOut(old(auth.State())))
        && (fetched.Err? && !ForcesLogout(fetched.error) ==> auth.State() == old(auth.State()))
    {
      if !auth.isAuthenticated || !(auth.token.Some? && auth.token.value != "") {
        return;
      }
      isLoadingPage := true;
      pageError := None;
      match fetched {
        case Ok(items) =>
          upcoming := items;
        case Err(message) =>
          pageError := Some(message);
          if Includes(message, GarbledTokenInvalid) || Includes(message, TokenRequired) || Includes(message, ProfileFetchFailed) {
            auth.Logout();
          }
      }
      isLoadingPage := false;
    }
  }
}
