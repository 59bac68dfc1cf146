/**
 * The server's weather controller: the `autocomplete` action that guards the
 * city-suggestion lookup, and the `search` action that validates the city,
 * fetches current weather and forecast, and turns the reply into what the
 * index page shows.
 *
 * The weather service and the suggestion lookup do network I/O and are given
 * to the actions as parameters: the lookup as a function, the fetch as its
 * outcome for the requested city.
 */
module WeatherEndpoints {
  import opened Wrappers
  import RubyText
  import JsText

  const MinQueryLength := 2
  const SuggestionLimit := 5
  const ForecastEntries := 8

  const EnterCityMessage := "Please enter a city name"
  const TooShortMessage := "City name must be at least 2 characters"
  const NotFoundMessage := "City not found. Please check the spelling and try again."
  const ApiKeyMessage := "API key error. Please contact support."
  const UnavailableMessage := "Unable to fetch weather data. Please try again later."
  const NetworkMessage := "Network error. Please check your connection and try again."

  /** What `autocomplete` does with the `q` parameter: answer `[]` at once, or
      ask the suggestion lookup. */
  datatype Decision = Rejected | Lookup(query: string, limit: nat)

  function AutocompleteDecision(q: Option<string>): (r: Decision)
    ensures r.Rejected? <==> RubyText.Blank(q) || |RubyText.Strip(q.value)| < MinQueryLength
    ensures r.Lookup? ==> q == Some(r.query) && r.limit == SuggestionLimit
  {
    if RubyText.Blank(q) || |RubyText.Strip(q.value)| < MinQueryLength then Rejected
    else Lookup(q.value, SuggestionLimit)
  }

  /** The JSON array `autocomplete` renders; `fetchCitySuggestions` stands for
      the service's lookup, which is not part of this model. */
  function Autocomplete<S>(q: Option<string>, fetchCitySuggestions: (string, nat) -> seq<S>): (r: seq<S>)
    ensures AutocompleteDecision(q).Rejected? ==> r == []
    ensures AutocompleteDecision(q).Lookup? ==> r == fetchCitySuggestions(q.value, SuggestionLimit)
  {
    match AutocompleteDecision(q)
    case Rejected => []
    case Lookup(query, limit) => fetchCitySuggestions(query, limit)
  }

  /** `blank?` and `strip` disagree on what whitespace is: a run of no-break
      spaces survives `strip` but is blank, so the query is refused. */
  lemma NoBreakSpacesRejected(q: string)
    requires |q| >= MinQueryLength && forall i | 0 <= i < |q| :: q[i] as int == 0xA0
    ensures RubyText.Strip(q) == q
    ensures AutocompleteDecision(Some(q)).Rejected?
  {
    RubyText.StripOfClean(q);
  }

  predicate PrintableAscii(s: string) {
    forall i | 0 <= i < |s| :: 0x20 <= s[i] as int <= 0x7E
  }

  /** Every query the browser sends for plain ASCII text (normalised, at least
      two code units long) passes the server's check. */
  lemma AsciiClientQueriesAccepted(typed: string)
    requires PrintableAscii(typed)
    requires JsText.Utf16Length(JsText.Normalize(typed)) >= MinQueryLength
    ensures AutocompleteDecision(Some(JsText.Normalize(typed))).Lookup?
  {
    var q := JsText.Normalize(typed);
    assert PrintableAscii(q) by { AsciiNormalized(typed); }
    assert |q| >= MinQueryLength by { AsciiUtf16Length(q); }
    assert q[0] != ' ' && q[|q| - 1] != ' ' by {
      JsText.NormalizeShape(typed);
      NoEdgePlainSpace(q);
    }
    CleanAsciiAccepted(q);
  }

  lemma NoEdgePlainSpace(q: string)
    requires q != [] && JsText.NoEdgeSpace(q)
    ensures q[0] != ' ' && q[|q| - 1] != ' '
  {
    assert JsText.IsSpace(' ');
  }

  /** Printable ASCII text of two or more characters that does not start or
      end with a space passes the server's check unchanged. */
  lemma CleanAsciiAccepted(q: string)
    requires PrintableAscii(q) && |q| >= MinQueryLength
    requires q[0] != ' ' && q[|q| - 1] != ' '
    ensures AutocompleteDecision(Some(q)).Lookup?
  {
    var c := q[0];
    assert 0x20 < c as int <= 0x7E;
    assert !RubyText.IsBlankSpace(c);
    assert !RubyText.Blank(Some(q));
    assert 0x20 < q[|q| - 1] as int <= 0x7E;
    RubyText.StripOfClean(q);
  }

  lemma AsciiNormalized(typed: string)
    requires PrintableAscii(typed)
    ensures PrintableAscii(JsText.Normalize(typed))
  {
    JsText.NormalizeKeepsText(typed);
    var q := JsText.Normalize(typed);
    JsText.NormalizeShape(typed);
    forall i | 0 <= i < |q| ensures 0x20 <= q[i] as int <= 0x7E {
      if JsText.IsSpace(q[i]) {
        JsText.SingleSpacedAt(q, i);
      } else {
        NonSpaceHas(q, i);
        NonSpaceFrom(typed, q[i]);
      }
    }
  }

  lemma {:induction false} NonSpaceHas(s: string, i: nat)
    requires i < |s| && !JsText.IsSpace(s[i])
    ensures s[i] in JsText.NonSpace(s)
  {
    if i > 0 { NonSpaceHas(s[1..], i - 1); }
  }

  lemma {:induction false} NonSpaceFrom(s: string, c: char)
    requires c in JsText.NonSpace(s)
    ensures c in s
  {
    if s != [] && c != s[0] { NonSpaceFrom(s[1..], c); }
  }

  lemma {:induction false} AsciiUtf16Length(s: string)
    requires PrintableAscii(s)
    ensures JsText.Utf16Length(s) == |s|
  {
    if s != [] { AsciiUtf16Length(s[1..]); }
  }

  /** The three whitespace classes in play: JavaScript's `\s` (which the
      browser trims and collapses), Rails' `blank?` and Ruby's `strip`. `\s`
      and `blank?` agree except on U+0085, which only `blank?` counts, and
      U+FEFF, which only `\s` counts; `strip` removes the ASCII whitespace
      of both and NUL, which neither counts. */
  lemma WhitespaceClasses(c: char)
    ensures RubyText.IsStripSpace(c) && c != '\0' ==> RubyText.IsBlankSpace(c) && JsText.IsSpace(c)
    ensures RubyText.IsBlankSpace(c) && c != '\U{0085}' ==> JsText.IsSpace(c)
    ensures JsText.IsSpace(c) && c != '\U{FEFF}' ==> RubyText.IsBlankSpace(c)
    ensures RubyText.IsStripSpace('\0') && !RubyText.IsBlankSpace('\0') && !JsText.IsSpace('\0')
    ensures RubyText.IsBlankSpace('\U{0085}') && !JsText.IsSpace('\U{0085}')
    ensures JsText.IsSpace('\U{FEFF}') && !RubyText.IsBlankSpace('\U{FEFF}')
    ensures !RubyText.IsStripSpace('\U{00A0}') && RubyText.IsBlankSpace('\U{00A0}')
  {
  }

  /** The browser counts UTF-16 code units and the server counts characters, so a
      single character beyond U+FFFF (an emoji, say) is long enough to be sent
      but is refused by the server. */
  lemma AstralCharacterSentButRejected(c: char)
    requires c as int > 0xFFFF
    ensures JsText.Normalize([c]) == [c] && JsText.Utf16Length([c]) >= MinQueryLength
    ensures AutocompleteDecision(Some([c])).Rejected?
  {
    var s := [c];
    assert !JsText.IsSpace(s[0]);
    JsText.NormalizeFixedPoints(s);
    assert JsText.Utf16Length(s) == 2 + JsText.Utf16Length(s[1..]);
    assert |RubyText.Strip(s)| <= 1;
  }

  /** What the weather service hands back for the current conditions: a reply
      whose "cod" can be read, or one where reading it raises. */
  datatype Current = Conditions(cod: RubyText.CodValue) | CurrentUnreadable

  /** The forecast reply's "list": an array, absent (`nil`), or a reply where
      looking it up raises. */
  datatype ForecastList<F> = Listed(entries: seq<F>) | NoList | ListUnreadable

  /** The outcome of `WeatherService.fetch_weather(city)`: it raised, or it
      returned both replies. */
  datatype WeatherFetch<F> = Raised | Fetched(current: Current, forecast: ForecastList<F>)

  /** The instance variables the index page is rendered with, and the city the
      weather service was asked for (`None` when it was not called). Every path
      of `search` renders the index page with these. */
  datatype SearchView<F> = SearchView(
    error: Option<string>,
    city: Option<string>,
    current: Option<Current>,
    forecast: Option<seq<F>>,
    serviceCalledWith: Option<string>)

  /** The message for a status code other than 200. */
  function ErrorForCode(code: int): (r: Option<string>)
    ensures r.None? <==> code == 200
    ensures code == 404 ==> r == Some(NotFoundMessage)
    ensures code == 401 ==> r == Some(ApiKeyMessage)
    ensures code != 200 && code != 404 && code != 401 ==> r == Some(UnavailableMessage)
  {
    if code == 200 then None
    else if code == 404 then Some(NotFoundMessage)
    else if code == 401 then Some(ApiKeyMessage)
    else Some(UnavailableMessage)
  }

  /** `list&.first(8)`. */
  function FirstEntries<F>(list: seq<F>): (r: seq<F>)
    ensures |r| <= ForecastEntries && |r| <= |list| && r == list[..|r|]
    ensures |list| >= ForecastEntries ==> |r| == ForecastEntries
    ensures |list| < ForecastEntries ==> r == list
  {
    if |list| <= ForecastEntries then list else list[..ForecastEntries]
  }

  /** `@forecast`: the first entries of the list, or `nil` without a list. */
  function ShownForecast<F>(forecast: ForecastList<F>): (r: Option<seq<F>>)
    ensures r.Some? <==> forecast.Listed?
    ensures forecast.Listed? ==> r == Some(FirstEntries(forecast.entries))
  {
    match forecast
    case Listed(entries) => Some(FirstEntries(entries))
    case _ => None
  }

  /** The city passes both of `search`'s checks. */
  predicate CityAccepted(city: Option<string>) {
    !RubyText.Blank(city) && |city.value| >= MinQueryLength
  }

  /** The `search` action for the `city` parameter, where `fetch` is what the
      weather service does for that city. */
  function Search<F>(city: Option<string>, fetch: WeatherFetch<F>): (r: SearchView<F>)
    ensures RubyText.Blank(city) ==> r == SearchView(Some(EnterCityMessage), None, None, None, None)
    ensures !RubyText.Blank(city) && |city.value| < MinQueryLength ==>
      r == SearchView(Some(TooShortMessage), None, None, None, None)
    ensures !RubyText.Blank(city) && |city.value| >= MinQueryLength ==> r.serviceCalledWith == city
    ensures fetch.Raised? && r.serviceCalledWith.Some? ==>
      r == SearchView(Some(NetworkMessage), None, None, None, city)
    ensures r.forecast.Some? ==>
      (fetch.Fetched? && fetch.forecast.Listed? && r.forecast.value == FirstEntries(fetch.forecast.entries))
    ensures r.error.None? <==>
      (&& !RubyText.Blank(city) && |city.value| >= MinQueryLength
       && fetch.Fetched? && fetch.current.Conditions? && !fetch.forecast.ListUnreadable?
       && RubyText.ToI(fetch.current.cod) == Some(200))
    ensures CityAccepted(city) && fetch.Fetched? ==> r.city == city && r.current == Some(fetch.current)
    ensures (CityAccepted(city) && fetch.Fetched? && fetch.current.Conditions?
             && RubyText.ToI(fetch.current.cod).Some? && !fetch.forecast.ListUnreadable?) ==>
      r.error == ErrorForCode(RubyText.ToI(fetch.current.cod).value)
    ensures (CityAccepted(city) && fetch.Fetched?
             && (fetch.current.CurrentUnreadable? || RubyText.ToI(fetch.current.cod).None?
                 || fetch.forecast.ListUnreadable?)) ==>
      r.error == Some(NetworkMessage)
    ensures (CityAccepted(city) && fetch.Fetched? && fetch.forecast.Listed?) ==>
      r.forecast == Some(FirstEntries(fetch.forecast.entries))
  {
    if RubyText.Blank(city) then SearchView(Some(EnterCityMessage), None, None, None, None)
    else if |city.value| < MinQueryLength then SearchView(Some(TooShortMessage), None, None, None, None)
    else
      match fetch
      case Raised => SearchView(Some(NetworkMessage), None, None, None, city)
      case Fetched(current, forecast) =>
        if forecast.ListUnreadable? then SearchView(Some(NetworkMessage), city, Some(current), None, city)
        else
          var entries := ShownForecast(forecast);
          match current
          case CurrentUnreadable => SearchView(Some(NetworkMessage), city, Some(current), entries, city)
          case Conditions(cod) =>
            match RubyText.ToI(cod)
            case None => SearchView(Some(NetworkMessage), city, Some(current), entries, city)
            case Some(code) => SearchView(ErrorForCode(code), city, Some(current), entries, city)
  }

  /** The blank check comes first: a city of one space is reported as missing,
      not as too short. */
  lemma BlankCheckFirst<F>(fetch: WeatherFetch<F>)
    ensures Search(Some(" "), fetch).error == Some(EnterCityMessage)
  {
  }

  /** The length check counts the raw parameter, surrounding spaces included:
      " a" reaches the weather service. */
  lemma LengthCheckCountsSpaces<F>(fetch: WeatherFetch<F>)
    ensures Search(Some(" a"), fetch).serviceCalledWith == Some(" a")
  {
    assert !RubyText.IsBlankSpace(" a"[1]);
  }

  /** A status code the API writes as a decimal string selects the same message
      as the number itself. */
  lemma StringCodesLikeNumbers<F>(city: string, n: nat, forecast: ForecastList<F>)
    requires !RubyText.Blank(Some(city)) && |city| >= MinQueryLength
    ensures Search(Some(city), Fetched(Conditions(RubyText.StrCod(RubyText.Decimal(n))), forecast)).error
         == Search(Some(city), Fetched(Conditions(RubyText.IntCod(n)), forecast)).error
  {
    RubyText.DecimalRoundTrip(n);
  }
}
