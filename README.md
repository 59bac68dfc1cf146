# Coffee Weather: autocomplete, search history and request validation in Dafny

This project models the three pieces of logic in the coffee-weather Rails
application that decide behaviour rather than render it:

- the browser's **autocomplete controller** (`autocomplete_controller.js`): a
  debounced search box whose keystrokes start a single pending timer, whose
  timer sends a normalised query to `/autocomplete`, whose responses fill a
  dropdown of suggestions, and whose arrow keys, Enter, Escape, row clicks and
  outside clicks move through, commit or dismiss that dropdown;
- the browser's **search history** (`search_history_controller.js`): a list of
  recent searches under one localStorage key, newest first, without two entries
  that differ only in letter case, capped at `maxItems` (5 by default);
- the server's **weather controller** (`weather_controller.rb`): the
  `autocomplete` action that refuses short or blank queries before calling the
  suggestion lookup with a limit of 5, and the `search` action that validates
  the city, maps the API status code to a message and keeps the first 8
  forecast entries.

Files:

- `wrappers.dfy`: `Option`.
- `sequences.dfy` (module `Sequences`): three facts about cutting a sequence
  into pieces, and one about where an element of a sequence stands (last or
  earlier).
- `js_text.dfy` (module `JsText`): JavaScript `trim`, the `\s` class, the
  whitespace-collapsing normalisation and UTF-16 `length`, with the proofs that
  normalisation joins the query's words (its maximal runs of non-whitespace)
  with single spaces, removes whitespace only and is idempotent.
- `autocomplete.dfy` (module `Autocomplete`): the controller's state as a value
  `Ui` with one function per event (the specification), the state invariant and
  the multi-event lemmas (arrow-key walks, debouncing, invariant over any event
  sequence); then the class `AutocompleteController`, whose fields are the
  JavaScript instance's fields and whose methods, one per event handler, are
  proved to follow those functions.
- `search_history.dfy` (module `SearchHistory`): the list update `Added` with
  its properties, and the class `SearchHistoryController` whose `stored` field
  is the localStorage entry.
- `ruby_text.dfy` (module `RubyText`): Ruby `strip`, Rails `blank?` and
  `to_i`, with the proof that `to_i` reads back decimal status codes.
- `weather_controller.dfy` (module `WeatherEndpoints`): the two actions as
  functions, and lemmas relating the server's checks to what the browser sends.

Modelling choices:

- Time is one pending-timer slot carrying its query. A network response is an
  event (`Response`): a transport failure, or a reply with its ok flag and a
  body that is unparsable, a JSON array, or another JSON value. Responses are
  applied in arrival order with no check of which request they answer, as in
  the code.
- An element of the suggestion array is a truthy `Record`, a falsy scalar
  (`false`, `0`, `""`), or `null`. A `Record`'s `name` and `country` are each
  falsy (the empty string among them), a non-empty string, or another truthy value carried with the text a template
  literal renders it to. Rendering reads `display_name` of every element,
  which throws on `null`; the exception is caught and the dropdown is hidden,
  and the model does the same. Choosing a row whose name is a truthy
  non-string and whose country is falsy makes `trim()` throw, so nothing is
  committed.
- The keyboard handler counts the rows rendered into the dropdown, not the
  suggestion array; the model keeps both (`rendered`, `suggestions`) and the
  invariant `Inv` proves that they agree whenever the dropdown is visible.
- The browser's `length` counts UTF-16 code units, Ruby's counts characters;
  `JsText.Utf16Length` and `|s|` keep the two apart.
- Case-insensitive comparison in the history goes through a parameter `lower`
  standing for `toLowerCase`; every history property is proved for any such
  mapping.
- The weather service and the city-suggestion lookup do network I/O: the lookup
  is a function parameter of `Autocomplete`, and the weather fetch is given to
  `Search` as its outcome (`WeatherFetch`: raised, or both replies).
- A keystroke is accepted on its trimmed length; only the timer normalises
  the query, just before it is sent.
- After `disconnect` the controller handles only the answer to a request
  already sent (`Delivered` in `Run`): the page click listener and the
  element's actions are gone and the timer is cleared.
- A status code without `to_i` (`true`, `false`, an array, an object) raises
  in `search`; the error is rescued as the network-error message.

## Model

| member | source | states |
|---|---|---|
| JsText.Trim | app/javascript/controllers/autocomplete_controller.js:40 | the result of `trim` is no longer than the input and neither starts nor ends with whitespace |
| JsText.TrimSplits | app/javascript/controllers/autocomplete_controller.js:40 | the input is a leading whitespace run, the result of `trim` and a trailing whitespace run |
| JsText.TrimKeepsText | app/javascript/controllers/autocomplete_controller.js:40 | trimming removes whitespace only: the other characters survive in order |
| JsText.TrimIdempotent | app/javascript/controllers/autocomplete_controller.js:40 | trimming twice equals trimming once |
| JsText.WordsTrim | app/javascript/controllers/autocomplete_controller.js:59 | trimming keeps the words (maximal runs of non-whitespace) |
| JsText.Collapse | app/javascript/controllers/autocomplete_controller.js:59 | `replace(/\s+/g, ' ')` leaves every whitespace character a plain space with no two adjacent, is empty exactly when its input is, and starts with whitespace exactly when its input does |
| JsText.CollapseLast | app/javascript/controllers/autocomplete_controller.js:59 | the collapsed text ends with whitespace exactly when its input does |
| JsText.CollapseKeepsWords | app/javascript/controllers/autocomplete_controller.js:59 | collapsing keeps the words; with `Collapse`'s contract, every whitespace run between words becomes exactly one space |
| JsText.NormalizeWords | app/javascript/controllers/autocomplete_controller.js:59 | the normalised query is the query's words joined by single plain spaces |
| JsText.NormalizeShape | app/javascript/controllers/autocomplete_controller.js:59 | a normalised query has no leading, trailing or doubled whitespace, and its only whitespace is plain spaces |
| JsText.NormalizeKeepsText | app/javascript/controllers/autocomplete_controller.js:59 | normalisation removes and merges whitespace and nothing else |
| JsText.NormalizeFixedPoints | app/javascript/controllers/autocomplete_controller.js:59 | normalisation leaves a text unchanged exactly when it has no edge whitespace and is single-spaced |
| JsText.NormalizeIdempotent | app/javascript/controllers/autocomplete_controller.js:59 | normalising twice equals normalising once |
| JsText.Utf16Length | app/javascript/controllers/autocomplete_controller.js:42 | JavaScript `length` is between the character count and twice it; it is the character count when every character is at most U+FFFF, twice it when every one is above; one character counts 2 above U+FFFF and 1 otherwise |
| JsText.Utf16LengthAppend | app/javascript/controllers/autocomplete_controller.js:42 | the length of a concatenation is the sum of the lengths, so each character above U+FFFF adds one code unit |
| Autocomplete.Hide | app/javascript/controllers/autocomplete_controller.js:149-153 | hiding always leaves the dropdown hidden, no suggestions, selection -1, and the input and timer as they were |
| Autocomplete.OnSearch | app/javascript/controllers/autocomplete_controller.js:39-54 | a trimmed query shorter than `minLength` hides and keeps any pending timer; a long enough one replaces the timer with one for the trimmed query; the invariant is kept |
| Autocomplete.OnTimer | app/javascript/controllers/autocomplete_controller.js:51-66 | an elapsed timer sends its normalised query exactly when that is long enough, leaving the rest of the state alone, otherwise hides; afterwards no timer is pending; no timer, no request |
| Autocomplete.Display | app/javascript/controllers/autocomplete_controller.js:93-104 | an empty suggestion list hides; a non-empty one is shown as it is with nothing selected; the input and the timer are unchanged |
| Autocomplete.OnResponse | app/javascript/controllers/autocomplete_controller.js:66-79 | the dropdown ends visible exactly for an ok reply with a non-empty array free of `null`, showing that array in order with selection -1; every other outcome hides |
| Autocomplete.SearchQuery | app/javascript/controllers/autocomplete_controller.js:137-141 | the chosen row's text is "name, country" when the country is truthy, else the name; it is not a string (so `trim()` throws) exactly when the country is falsy and the name a truthy non-string |
| Autocomplete.OnSelect | app/javascript/controllers/autocomplete_controller.js:132-147 | a truthy suggestion at the index whose text is a string puts that text, trimmed, into the input, hides and submits the form; any other index or suggestion changes nothing |
| Autocomplete.OnKey | app/javascript/controllers/autocomplete_controller.js:159-202 | keys do nothing while hidden or without rows; only a committing Enter changes the input or submits, and it stops the native submit; the arrows and Escape stop the default action and Escape hides; a key outside the switch changes nothing and prevents nothing; the invariant is kept |
| Autocomplete.OnClick | app/javascript/controllers/autocomplete_controller.js:23-37 | a click outside input and dropdown while visible hides; any other click changes nothing |
| Autocomplete.RunKeepsInv | app/javascript/controllers/autocomplete_controller.js:7-202 | from connection on, after any sequence of events, a hidden dropdown has no suggestions and selection -1, and a visible one shows all its rows with selection in -1 .. rows - 1 |
| Autocomplete.NoTimerAfterDisconnect | app/javascript/controllers/autocomplete_controller.js:16-21 | once `disconnect` has run, no timer is pending whatever events follow, so no further request is sent |
| Autocomplete.ArrowDownWalk | app/javascript/controllers/autocomplete_controller.js:172-176 | k ArrowDown presses select min(i + k, n - 1) and change nothing else |
| Autocomplete.ArrowUpWalk | app/javascript/controllers/autocomplete_controller.js:177-186 | k ArrowUp presses select max(i - k, -1), the dropdown staying open |
| Autocomplete.EnterOnSelectedRow | app/javascript/controllers/autocomplete_controller.js:187-191 | Enter on a selected row stops the native submit and commits the row when it commits; on any other row it changes nothing |
| Autocomplete.EnterWithoutSelection | app/javascript/controllers/autocomplete_controller.js:192-196 | Enter with selection -1 hides and lets the form submit natively |
| Autocomplete.DebounceKeepsLatest | app/javascript/controllers/autocomplete_controller.js:39-54 | after a burst of keystrokes the one pending timer carries the latest accepted query, or the earlier timer when none was accepted |
| Autocomplete.DebounceSendsOnce | app/javascript/controllers/autocomplete_controller.js:47-66 | a burst ends in one request, for the normalised latest accepted query, and a second expiry sends nothing |
| Autocomplete.CommittedText | app/javascript/controllers/autocomplete_controller.js:137-141 | a suggestion with clean string fields commits "name, country", or "name" without a country |
| Autocomplete.ShortQueryKeepsEarlierTimer | app/javascript/controllers/autocomplete_controller.js:39-53 | for any state, a long enough keystroke followed by one whose trimmed text is too short (say "Pa" then "P") hides the dropdown but leaves the first timer pending, so the request sent is for the earlier text, not the trimmed text the input now holds |
| Autocomplete.AutocompleteController.constructor | app/javascript/controllers/autocomplete_controller.js:7-14 | `connect`: no timer, no suggestions, selection -1, dropdown hidden; the invariant holds |
| Autocomplete.AutocompleteController.Disconnect | app/javascript/controllers/autocomplete_controller.js:16-21 | `disconnect` clears the pending timer and nothing else |
| Autocomplete.AutocompleteController.HideSuggestions | app/javascript/controllers/autocomplete_controller.js:149-153 | updates the fields as `Hide` prescribes |
| Autocomplete.AutocompleteController.HideOnSubmit | app/javascript/controllers/autocomplete_controller.js:155-157 | submitting the form hides the dropdown |
| Autocomplete.AutocompleteController.Search | app/javascript/controllers/autocomplete_controller.js:39-54 | updates the fields as `OnSearch` prescribes and keeps the invariant |
| Autocomplete.AutocompleteController.FireTimer | app/javascript/controllers/autocomplete_controller.js:51-66 | returns the request and updates the fields as `OnTimer` prescribes |
| Autocomplete.AutocompleteController.DisplaySuggestions | app/javascript/controllers/autocomplete_controller.js:93-104 | updates the fields as `Display` prescribes and establishes the invariant |
| Autocomplete.AutocompleteController.ReceiveResponse | app/javascript/controllers/autocomplete_controller.js:66-79 | updates the fields as `OnResponse` prescribes |
| Autocomplete.AutocompleteController.SelectSuggestion | app/javascript/controllers/autocomplete_controller.js:132-147 | commits as `OnSelect` prescribes and reports the submit |
| Autocomplete.AutocompleteController.HandleKeydown | app/javascript/controllers/autocomplete_controller.js:159-202 | updates the fields and reports prevent-default and submit as `OnKey` prescribes |
| Autocomplete.AutocompleteController.HandleClickOutside | app/javascript/controllers/autocomplete_controller.js:23-37 | updates the fields as `OnClick` prescribes |
| SearchHistory.Without | app/javascript/controllers/search_history_controller.js:22 | the filter keeps exactly the entries whose lower-case form differs from the city's, never more entries than before |
| SearchHistory.WithoutCounts | app/javascript/controllers/search_history_controller.js:22 | the filter keeps every copy of each non-matching entry and no copy of a matching one |
| SearchHistory.WithoutIsSubsequence | app/javascript/controllers/search_history_controller.js:22 | the filter keeps the old relative order |
| SearchHistory.Slice | app/javascript/controllers/search_history_controller.js:26 | `slice(0, end)` is a prefix, of length `end` capped by the list, or counted back from the end for a negative `end` |
| SearchHistory.AddedHead | app/javascript/controllers/search_history_controller.js:24-26 | with `maxItems >= 1` the new city is the first entry |
| SearchHistory.AddedHasNoOtherCopy | app/javascript/controllers/search_history_controller.js:22-26 | no entry after the head equals the city ignoring case |
| SearchHistory.AddedLength | app/javascript/controllers/search_history_controller.js:19-26 | the list has at most `maxItems` entries and grows by at most one |
| SearchHistory.AddedKeepsOrder | app/javascript/controllers/search_history_controller.js:20-26 | after the head come the first non-matching old entries, in their old order |
| SearchHistory.AddedBelowCap | app/javascript/controllers/search_history_controller.js:20-26 | below the cap the list is the city followed by the filtered old list, so it holds exactly the city and the non-matching old entries |
| SearchHistory.WithoutKeepsNoDuplicates | app/javascript/controllers/search_history_controller.js:22 | filtering a list without case-insensitive duplicates keeps it so |
| SearchHistory.AddedKeepsNoDuplicates | app/javascript/controllers/search_history_controller.js:22-26 | a history without case-insensitive duplicates stays without them |
| SearchHistory.AddedIdempotent | app/javascript/controllers/search_history_controller.js:19-26 | adding the same city twice in a row stores what adding it once does |
| SearchHistory.SearchHistoryController.constructor | app/javascript/controllers/search_history_controller.js:7-9 | `connect` starts from what is already stored |
| SearchHistory.SearchHistoryController.GetHistory | app/javascript/controllers/search_history_controller.js:33-36 | an absent key reads as the empty list, a present one as its list |
| SearchHistory.SearchHistoryController.AddToHistory | app/javascript/controllers/search_history_controller.js:19-31 | stores `Added` of the old history: city first, at most `maxItems`, no new case-insensitive duplicates |
| SearchHistory.SearchHistoryController.SaveSearch | app/javascript/controllers/search_history_controller.js:12-17 | an input that trims to empty leaves the store alone; otherwise the trimmed text is added |
| SearchHistory.SearchHistoryController.ClearHistory | app/javascript/controllers/search_history_controller.js:87-90 | the key is removed and the history reads as empty |
| RubyText.Strip | app/controllers/weather_controller.rb:9 | the result of `strip` is no longer than the input and neither starts nor ends with NUL or ASCII whitespace |
| RubyText.StripSplits | app/controllers/weather_controller.rb:9 | the input is a leading run of NUL and ASCII whitespace, the result of `strip` and a trailing such run; other whitespace (a no-break space) is kept |
| RubyText.BlankAppend | app/controllers/weather_controller.rb:9 | `blank?` holds for a concatenation exactly when it holds for both parts |
| RubyText.StringToI | app/controllers/weather_controller.rb:42-43 | `String#to_i` is 0 unless a digit, or a sign and a digit, follows the leading whitespace, and negative only after a minus sign |
| RubyText.LeadingSpaceIgnored | app/controllers/weather_controller.rb:42-43 | a space in front of a code does not change its `to_i` |
| RubyText.ToI | app/controllers/weather_controller.rb:42-43 | `to_i` keeps an integer, reads `nil` as 0, and raises exactly for a value without `to_i` |
| RubyText.DecimalRoundTrip | app/controllers/weather_controller.rb:42-43 | `to_i` reads back every decimal status code, with or without a minus sign |
| WeatherEndpoints.AutocompleteDecision | app/controllers/weather_controller.rb:5-14 | a nil or blank query, or one that strips below 2 characters, is refused; any other is passed unstripped with limit 5 |
| WeatherEndpoints.Autocomplete | app/controllers/weather_controller.rb:5-16 | a refused query renders `[]` without calling the lookup; any other renders what the lookup returns for the raw query and limit 5 |
| WeatherEndpoints.WhitespaceClasses | app/controllers/weather_controller.rb:9 | JavaScript's `\s` and `blank?` agree except on U+0085 and U+FEFF; `strip` removes their ASCII whitespace and NUL, and keeps a no-break space that `blank?` counts |
| WeatherEndpoints.NoBreakSpacesRejected | app/controllers/weather_controller.rb:9 | a run of two or more no-break spaces survives `strip` yet is blank, so the query is refused |
| WeatherEndpoints.AsciiClientQueriesAccepted | app/controllers/weather_controller.rb:9-14 | every normalised printable-ASCII query the browser sends passes the server's check |
| WeatherEndpoints.AstralCharacterSentButRejected | app/controllers/weather_controller.rb:9 | any single character beyond U+FFFF is unchanged by normalisation and long enough for the browser, but too short for the server |
| WeatherEndpoints.ErrorForCode | app/controllers/weather_controller.rb:42-51 | no message exactly for 200; 404 "City not found", 401 "API key error", anything else "Unable to fetch" |
| WeatherEndpoints.FirstEntries | app/controllers/weather_controller.rb:39 | `first(8)`: at most 8 entries, a prefix of the list, the whole list when shorter |
| WeatherEndpoints.ShownForecast | app/controllers/weather_controller.rb:39 | `@forecast` is set exactly when the reply has a list, and is then its first 8 entries |
| WeatherEndpoints.Search | app/controllers/weather_controller.rb:19-58 | blank city: "Please enter a city name", no fetch; non-blank under 2 characters: "at least 2 characters", no fetch; otherwise the raw city is fetched; a raised fetch, an unreadable reply or a code without `to_i` gives "Network error"; a readable code gives its `ErrorForCode` message; city and current are kept; the forecast is the first 8 list entries; there is no error exactly when the replies are readable and the code reads as 200 |
| WeatherEndpoints.BlankCheckFirst | app/controllers/weather_controller.rb:22-32 | a one-space city gets the blank message, not the length message |
| WeatherEndpoints.LengthCheckCountsSpaces | app/controllers/weather_controller.rb:28-35 | the length check counts surrounding spaces, so " a" reaches the weather service |
| WeatherEndpoints.StringCodesLikeNumbers | app/controllers/weather_controller.rb:42-51 | a status code sent as a decimal string selects the same message as the number |

## Left out

- Rendering: the suggestion and history HTML, `escapeHtml`, `highlightItem` and `scrollIntoView`, CSS classes other than the dropdown's `hidden`, and the fade-in and fade-out of the history container (`displayHistory`). They change no state the model tracks.
- `selectCity` of the history controller: it writes a history entry into the input element and submits the form, a DOM action with no state of the controller.
- Debounce and fade delays in milliseconds, and `fetch`, `await` and `response.json()` as asynchronous operations: time is the pending-timer slot and a response is an event.
- Missing Stimulus targets: the dropdown, suggestion list and input are assumed present, and the dropdown is assumed to start hidden, as the page's markup has it.
- `minLength` and `maxItems` are integers; fractional Stimulus numbers are not modelled.
- Suggestion fields that are truthy but not strings carry the text a template literal renders for them; the model does not derive that text from the JSON value.
- A `q` parameter that is not a string (`?q[]=a`): when it is not blank, `query.strip` raises `NoMethodError` and the request fails; `autocomplete` takes `q` as a string or `nil` only.
- A `city` parameter that is not a string: `search` takes `city` as a string or `nil` only.
- Autocomplete.AutocompleteController.Disconnect: the class does not refuse method calls after `disconnect`; that later events are ignored is stated on the event sequence (`Run` with `Delivered`, `NoTimerAfterDisconnect`). Reconnecting is not modelled.
- The stored history is the list `addToHistory` last wrote; a stored value that is not a JSON array of strings, and JSON encoding and decoding, are not modelled. Other tabs writing the same key are not modelled.
- `toLowerCase` is a parameter, not Unicode's case mapping.
- `to_i` of a float status code and the "0d" decimal prefix are not modelled; `to_i` is modelled for leading whitespace, an optional sign and digits with single underscores.
- `WeatherService` (the HTTP calls to the weather API, URL escaping, the API key) is not part of this model; `fetch_city_suggestions` and its multi-word fallback are not part of this model and appear only as a function parameter.
- Logging (`console.error`, `Rails.logger`), routing and the view templates.
