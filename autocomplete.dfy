/**
 * The browser-side autocomplete controller: a text input, a debounce timer,
 * a dropdown of suggestion rows and the keyboard and mouse events that move
 * through it.
 *
 * The first half of the module gives the controller's state as a value `Ui`
 * and one function per event; these are the specification. The class
 * `AutocompleteController` at the end keeps the same state in fields that its
 * methods update in place, and each method is proved to follow its function.
 */
module Autocomplete {
  import opened Wrappers
  import opened JsText
  import opened Sequences

  /** A string JavaScript treats as truthy; `""` is falsy. */
  type NonEmptyString = s: string | s != [] witness "?"

  /** A property of a suggestion as the controller reads it: missing or falsy
      (the empty string among them), a non-empty string, or another truthy
      value (a number, an object) with the text a template literal renders it
      to. */
  datatype Field = Falsy | Str(value: NonEmptyString) | NonString(rendered: string)

  /** One element of the JSON array the suggestion endpoint answers with. A
      truthy element is a `Record`; `false`, `0` and `""` are falsy but can still
      be read as objects; reading a property of `null` throws. */
  datatype Entry = Record(name: Field, country: Field) | FalsyScalar | Null

  /** The body of a successful response: not JSON at all (`response.json()`
      rejects), a JSON array, or some other JSON value. */
  datatype Body = Unparsable | JsonArray(items: seq<Entry>) | JsonOther

  /** The outcome of one `fetch`: a transport failure, or an HTTP reply. */
  datatype Response = Failed | Reply(ok: bool, body: Body)

  datatype Key = ArrowDown | ArrowUp | Enter | Escape | OtherKey

  /** Where a click on the page landed. */
  datatype ClickTarget = InsideInput | InsideDropdown | Elsewhere

  /** The controller's values: `minLength` (2 unless the markup overrides it)
      and whether the input sits inside a form that a commit can submit. */
  datatype Config = Config(minLength: int, inForm: bool)

  /** Everything the controller's behaviour depends on.
      `rendered` is the number of rows last written into the dropdown; hiding the
      dropdown does not remove them. `timer` is the pending debounce timer with
      the query it will fetch, or `None`. */
  datatype Ui = Ui(
    input: string,
    suggestions: seq<Entry>,
    selected: int,
    hidden: bool,
    rendered: nat,
    timer: Option<string>)

  datatype Fired = Fired(ui: Ui, request: Option<string>)
  datatype Selected = Selected(ui: Ui, submit: bool)
  datatype KeyResult = KeyResult(ui: Ui, prevented: bool, submit: bool)

  /** The state invariant: a hidden dropdown holds no suggestions and no
      selection; a visible one shows exactly its suggestions, at least one, and
      the selection is a row or -1. */
  predicate Inv(u: Ui) {
    && (u.hidden ==> u.suggestions == [] && u.selected == -1)
    && (!u.hidden ==> 0 < |u.suggestions| == u.rendered && -1 <= u.selected < |u.suggestions|)
  }

  function Min(a: int, b: int): int { if a <= b then a else b }
  function Max(a: int, b: int): int { if a >= b then a else b }

  /** `hideSuggestions`. */
  function Hide(u: Ui): (r: Ui)
    ensures Inv(r)
    ensures r.hidden && r.suggestions == [] && r.selected == -1
    ensures r.input == u.input && r.timer == u.timer && r.rendered == u.rendered
  {
    u.(hidden := true, suggestions := [], selected := -1)
  }

  /** `search`, run on every keystroke after the browser has put `typed` into the
      input. A query shorter than `minLength` hides the dropdown and leaves any
      pending timer alone; a long enough one replaces the pending timer. */
  function OnSearch(u: Ui, typed: string, cfg: Config): (r: Ui)
    ensures Inv(u) ==> Inv(r)
    ensures r.input == typed
    ensures Utf16Length(Trim(typed)) < cfg.minLength ==> r == Hide(u.(input := typed))
    ensures Utf16Length(Trim(typed)) >= cfg.minLength ==>
      r == u.(input := typed, timer := Some(Trim(typed)))
  {
    var query := Trim(typed);
    if Utf16Length(query) < cfg.minLength then Hide(u.(input := typed))
    else u.(input := typed, timer := Some(query))
  }

  /** The pending timer elapses and runs `fetchSuggestions` up to the request:
      the query is normalised and either a request for it goes out or, when it is
      now too short, the dropdown is hidden. No timer, nothing happens. */
  function OnTimer(u: Ui, cfg: Config): (r: Fired)
    ensures Inv(u) ==> Inv(r.ui)
    ensures r.ui.timer == None && r.ui.input == u.input
    ensures u.timer == None ==> r.request == None && r.ui == u
    ensures r.request.Some? ==>
      (u.timer.Some? && r.request.value == Normalize(u.timer.value)
       && Utf16Length(r.request.value) >= cfg.minLength && r.ui == u.(timer := None))
    ensures u.timer.Some? && r.request.None? ==> r.ui == Hide(u.(timer := None))
    ensures u.timer.Some? && Utf16Length(Normalize(u.timer.value)) >= cfg.minLength ==>
      r.request == Some(Normalize(u.timer.value)) && r.ui == u.(timer := None)
  {
    match u.timer
    case None => Fired(u, None)
    case Some(query) =>
      var v := u.(timer := None);
      var normalized := Normalize(query);
      if Utf16Length(normalized) < cfg.minLength then Fired(Hide(v), None)
      else Fired(v, Some(normalized))
  }

  /** `displaySuggestions`, for the suggestions already stored. */
  function Display(u: Ui): (r: Ui)
    requires forall i | 0 <= i < |u.suggestions| :: u.suggestions[i] != Null
    ensures Inv(r)
    ensures u.suggestions == [] ==> r == Hide(u)
    ensures u.suggestions != [] ==> !r.hidden && r.suggestions == u.suggestions && r.selected == -1
    ensures r.input == u.input && r.timer == u.timer
  {
    if |u.suggestions| == 0 then Hide(u)
    else u.(hidden := false, selected := -1, rendered := |u.suggestions|)
  }

  predicate HasNull(items: seq<Entry>) {
    exists i | 0 <= i < |items| :: items[i] == Null
  }

  /** The rest of `fetchSuggestions`, when its response arrives. Every failure
      (transport, non-ok status, unparsable body, a body that is not an array,
      an empty array, a `null` element whose rendering throws) hides the
      dropdown; any other array is shown, in response order, with nothing
      selected. Responses are applied in the order they arrive, whichever
      request they answer. */
  function OnResponse(u: Ui, resp: Response): (r: Ui)
    ensures Inv(r)
    ensures r.input == u.input && r.timer == u.timer
    ensures !r.hidden <==>
      (resp.Reply? && resp.ok && resp.body.JsonArray? && resp.body.items != [] && !HasNull(resp.body.items))
    ensures !r.hidden ==> r.suggestions == resp.body.items && r.selected == -1
    ensures r.hidden ==> r == Hide(u)
  {
    match resp
    case Failed => Hide(u)
    case Reply(ok, body) =>
      if !ok then Hide(u)
      else match body
        case Unparsable => Hide(u)
        case JsonOther => Display(u.(suggestions := []))
        case JsonArray(items) =>
          if HasNull(items) then Hide(u)
          else Display(u.(suggestions := items))
  }

  /** `${field || ''}`. */
  function Text(field: Field): string {
    match field
    case Falsy => ""
    case Str(value) => value
    case NonString(rendered) => rendered
  }

  /** The text a chosen suggestion puts into the input, before trimming:
      "name, country" when the country is truthy, else just the name. `None`
      when that text is not a string, so that the `trim()` applied to it
      throws: a truthy name that is not a string and no country. */
  function SearchQuery(e: Entry): (q: Option<string>)
    requires e.Record?
    ensures q.None? <==> e.country.Falsy? && e.name.NonString?
    ensures !e.country.Falsy? ==> q == Some(Text(e.name) + ", " + Text(e.country))
    ensures e.country.Falsy? && !e.name.NonString? ==> q == Some(Text(e.name))
  {
    if !e.country.Falsy? then Some(Text(e.name) + ", " + Text(e.country))
    else if e.name.NonString? then None
    else Some(Text(e.name))
  }

  /** Choosing `e` commits text: it is truthy and its search text is a string. */
  predicate Commits(e: Entry) {
    e.Record? && SearchQuery(e).Some?
  }

  /** `selectSuggestion` for the row with data-index `index`: a suggestion there
      that commits puts its trimmed text into the input, hides the dropdown and
      submits the form; any other index, a falsy suggestion or one whose `trim()`
      throws changes nothing. */
  function OnSelect(u: Ui, index: int, cfg: Config): (r: Selected)
    ensures Inv(u) ==> Inv(r.ui)
    ensures r.ui.timer == u.timer
    ensures (0 <= index < |u.suggestions| && Commits(u.suggestions[index])) ==>
      r.ui == Hide(u.(input := Trim(SearchQuery(u.suggestions[index]).value))) && r.submit == cfg.inForm
    ensures !(0 <= index < |u.suggestions| && Commits(u.suggestions[index])) ==>
      r == Selected(u, false)
  {
    if 0 <= index < |u.suggestions| && Commits(u.suggestions[index]) then
      var committed := u.(input := Trim(SearchQuery(u.suggestions[index]).value));
      Selected(Hide(committed), cfg.inForm)
    else Selected(u, false)
  }

  lemma SelectCommits(u: Ui, index: int, cfg: Config)
    requires 0 <= index < |u.suggestions| && Commits(u.suggestions[index])
    ensures OnSelect(u, index, cfg) ==
      Selected(Hide(u.(input := Trim(SearchQuery(u.suggestions[index]).value))), cfg.inForm)
  {
  }

  /** `handleKeydown`. Keys do nothing while the dropdown is hidden or has no
      rows. The arrows move the selection, clamped to -1 .. rows - 1; Enter on a
      selected row clicks it and stops the native submit, Enter without one hides
      the dropdown and lets the form submit; Escape hides. */
  function OnKey(u: Ui, key: Key, cfg: Config): (r: KeyResult)
    ensures Inv(u) ==> Inv(r.ui)
    ensures r.ui.timer == u.timer
    ensures u.hidden || u.rendered == 0 ==> r == KeyResult(u, false, false)
    ensures r.ui.input != u.input || r.submit ==> key == Enter && r.prevented
    ensures key == Escape && !u.hidden && u.rendered > 0 ==> r.ui == Hide(u) && r.prevented
    ensures (key == ArrowDown || key == ArrowUp) && !u.hidden && u.rendered > 0 ==> r.prevented && !r.submit
    ensures key == OtherKey ==> r == KeyResult(u, false, false)
  {
    if u.hidden || u.rendered == 0 then KeyResult(u, false, false)
    else
      match key
      case ArrowDown => KeyResult(u.(selected := Min(u.selected + 1, u.rendered - 1)), true, false)
      case ArrowUp => KeyResult(u.(selected := Max(u.selected - 1, -1)), true, false)
      case Enter =>
        if 0 <= u.selected < u.rendered then
          var s := OnSelect(u, u.selected, cfg);
          KeyResult(s.ui, true, s.submit)
        else KeyResult(Hide(u), false, false)
      case Escape => KeyResult(Hide(u), true, false)
      case OtherKey => KeyResult(u, false, false)
  }

  /** `handleClickOutside`, for a click anywhere on the page. */
  function OnClick(u: Ui, target: ClickTarget): (r: Ui)
    ensures Inv(u) ==> Inv(r)
    ensures u.hidden || target != Elsewhere ==> r == u
    ensures !u.hidden && target == Elsewhere ==> r == Hide(u)
  {
    if u.hidden || target != Elsewhere then u else Hide(u)
  }

  /** Everything that can happen to the controller. */
  datatype Event =
    | Typed(text: string)
    | TimerElapsed
    | Responded(response: Response)
    | KeyDown(key: Key)
    | PageClick(target: ClickTarget)
    | RowClick(index: int)
    | FormSubmit
    | Disconnect

  /** The state after one event (`hideOnSubmit` for a form submit; `disconnect`
      clears the pending timer). */
  function Step(u: Ui, e: Event, cfg: Config): Ui {
    match e
    case Typed(text) => OnSearch(u, text, cfg)
    case TimerElapsed => OnTimer(u, cfg).ui
    case Responded(resp) => OnResponse(u, resp)
    case KeyDown(key) => OnKey(u, key, cfg).ui
    case PageClick(target) => OnClick(u, target)
    case RowClick(index) => OnSelect(u, index, cfg).ui
    case FormSubmit => Hide(u)
    case Disconnect => u.(timer := None)
  }

  /** Whether event `e` reaches the controller after the events `earlier`.
      `disconnect` removes the page click listener and the element's actions, so
      after it only the answer to a request already sent is still handled. */
  predicate Delivered(e: Event, earlier: seq<Event>) {
    Disconnect !in earlier || e.Responded?
  }

  /** The state after `events`, in order, starting from `u`. */
  function Run(u: Ui, events: seq<Event>, cfg: Config): Ui
    decreases |events|
  {
    if events == [] then u
    else
      var earlier := events[..|events| - 1];
      var e := events[|events| - 1];
      if Delivered(e, earlier) then Step(Run(u, earlier, cfg), e, cfg) else Run(u, earlier, cfg)
  }

  /** The state of a freshly connected controller. */
  function Initial(input: string): Ui {
    Ui(input, [], -1, true, 0, None)
  }

  /** Every event keeps the invariant. */
  lemma StepKeepsInv(u: Ui, e: Event, cfg: Config)
    requires Inv(u)
    ensures Inv(Step(u, e, cfg))
  {
    match e
    case Typed(text) =>
    case TimerElapsed =>
    case Responded(resp) =>
    case KeyDown(key) =>
    case PageClick(target) =>
    case RowClick(index) =>
    case FormSubmit =>
    case Disconnect =>
  }

  /** The invariant holds from connection on, whatever events arrive. */
  lemma {:induction false} RunKeepsInv(input: string, events: seq<Event>, cfg: Config)
    ensures Inv(Run(Initial(input), events, cfg))
    decreases |events|
  {
    if events != [] {
      var earlier := events[..|events| - 1];
      RunKeepsInv(input, earlier, cfg);
      StepKeepsInv(Run(Initial(input), earlier, cfg), events[|events| - 1], cfg);
    }
  }

  /** Once disconnected, the controller has no pending timer, so it sends no
      further request, whatever else happens. */
  lemma {:induction false} NoTimerAfterDisconnect(u: Ui, events: seq<Event>, cfg: Config)
    requires Disconnect in events
    ensures Run(u, events, cfg).timer == None
    decreases |events|
  {
    var earlier := events[..|events| - 1];
    var e := events[|events| - 1];
    var v := Run(u, earlier, cfg);
    LastOrEarlier(events, Disconnect);
    if Disconnect in earlier {
      NoTimerAfterDisconnect(u, earlier, cfg);
      if e.Responded? {
        ResponseKeepsTimer(v, e, cfg);
        assert Run(u, events, cfg) == Step(v, e, cfg);
      } else {
        assert Run(u, events, cfg) == v;
      }
    } else {
      assert Run(u, events, cfg) == v.(timer := None);
    }
  }

  lemma ResponseKeepsTimer(u: Ui, e: Event, cfg: Config)
    requires e.Responded?
    ensures Step(u, e, cfg).timer == u.timer
  {
  }

  /** Pressing `key` `k` times. */
  function Press(u: Ui, key: Key, k: nat, cfg: Config): Ui {
    if k == 0 then u else OnKey(Press(u, key, k - 1, cfg), key, cfg).ui
  }

  /** ArrowDown walks towards the last row and stops there; the dropdown and its
      suggestions stay as they were. */
  lemma {:induction false} ArrowDownWalk(u: Ui, k: nat, cfg: Config)
    requires Inv(u) && !u.hidden
    ensures Press(u, ArrowDown, k, cfg) == u.(selected := Min(u.selected + k, |u.suggestions| - 1))
  {
    if k > 0 { ArrowDownWalk(u, k - 1, cfg); }
  }

  /** ArrowUp walks towards -1 and stops there, keeping the dropdown open. */
  lemma {:induction false} ArrowUpWalk(u: Ui, k: nat, cfg: Config)
    requires Inv(u) && !u.hidden
    ensures Press(u, ArrowUp, k, cfg) == u.(selected := Max(u.selected - k, -1))
  {
    if k > 0 { ArrowUpWalk(u, k - 1, cfg); }
  }

  /** Enter commits the selected row: the input gets its trimmed search text,
      the dropdown hides, the native submit is stopped and the form is submitted
      programmatically. On a row that does not commit (a falsy one, or one whose
      `trim()` throws) Enter is swallowed and nothing changes. */
  lemma EnterOnSelectedRow(u: Ui, cfg: Config)
    requires Inv(u) && !u.hidden && u.selected >= 0
    ensures var r := OnKey(u, Enter, cfg);
      r.prevented &&
      if Commits(u.suggestions[u.selected]) then
        r.ui.hidden && r.ui.input == Trim(SearchQuery(u.suggestions[u.selected]).value)
        && r.submit == cfg.inForm
      else r.ui == u && !r.submit
  {
  }

  /** Enter with nothing selected hides the dropdown and leaves the submit to the
      browser. */
  lemma EnterWithoutSelection(u: Ui, cfg: Config)
    requires Inv(u) && !u.hidden && u.selected == -1
    ensures OnKey(u, Enter, cfg) == KeyResult(Hide(u), false, false)
  {
  }

  /** The keystrokes among `typed` that start a timer, and the query of the last
      of them. */
  function LastAccepted(typed: seq<string>, cfg: Config): Option<string>
    decreases |typed|
  {
    if typed == [] then None
    else
      var t := typed[|typed| - 1];
      if Utf16Length(Trim(t)) >= cfg.minLength then Some(Trim(t))
      else LastAccepted(typed[..|typed| - 1], cfg)
  }

  function TypeAll(u: Ui, typed: seq<string>, cfg: Config): Ui
    decreases |typed|
  {
    if typed == [] then u else OnSearch(TypeAll(u, typed[..|typed| - 1], cfg), typed[|typed| - 1], cfg)
  }

  /** Debouncing: after any burst of keystrokes at most one timer is pending, and
      it carries the query of the latest keystroke that was long enough; if none
      was, the timer pending before the burst is still there. */
  lemma {:induction false} DebounceKeepsLatest(u: Ui, typed: seq<string>, cfg: Config)
    ensures TypeAll(u, typed, cfg).timer ==
      if LastAccepted(typed, cfg).Some? then LastAccepted(typed, cfg) else u.timer
    decreases |typed|
  {
    if typed != [] {
      DebounceKeepsLatest(u, typed[..|typed| - 1], cfg);
    }
  }

  /** A burst of keystrokes ends in exactly one request when its timer elapses,
      for the normalised latest accepted query, and a second expiry sends
      nothing. */
  lemma DebounceSendsOnce(u: Ui, typed: seq<string>, cfg: Config)
    requires LastAccepted(typed, cfg).Some?
    requires Utf16Length(Normalize(LastAccepted(typed, cfg).value)) >= cfg.minLength
    ensures var f := OnTimer(TypeAll(u, typed, cfg), cfg);
      f.request == Some(Normalize(LastAccepted(typed, cfg).value)) && OnTimer(f.ui, cfg).request == None
  {
    DebounceKeepsLatest(u, typed, cfg);
  }

  /** A committed suggestion with clean fields reads "name, country", or just
      "name" without a country. */
  lemma CommittedText(name: string, country: Option<string>)
    requires name != [] && NoEdgeSpace(name)
    requires country.Some? ==> country.value != [] && NoEdgeSpace(country.value)
    ensures var e := Record(Str(name), if country.Some? then Str(country.value) else Falsy);
      SearchQuery(e).Some? &&
      Trim(SearchQuery(e).value) == if country.Some? then name + ", " + country.value else name
  {
    var q := SearchQuery(Record(Str(name), if country.Some? then Str(country.value) else Falsy)).value;
    if country.Some? {
      assert q[0] == name[0];
      assert q[|q| - 1] == country.value[|country.value| - 1];
    }
    TrimOfNoEdgeSpace(q);
  }

  /**
   * The controller object. The fields mirror the JavaScript instance:
   * `debounceTimer`, `selectedIndex`, `suggestions`, the dropdown's `hidden`
   * class, the rows written into the dropdown and the input element's value.
   */
  class AutocompleteController {
    const config: Config
    var inputValue: string
    var suggestions: seq<Entry>
    var selectedIndex: int
    var dropdownHidden: bool
    var renderedRows: nat
    var debounceTimer: Option<string>

    ghost function State(): Ui
      reads this
    {
      Ui(inputValue, suggestions, selectedIndex, dropdownHidden, renderedRows, debounceTimer)
    }

    ghost predicate Valid()
      reads this
    {
      Inv(State())
    }

    /** `connect`: no timer, no suggestions, no selection, dropdown hidden. */
    constructor (config: Config, initialInput: string)
      ensures Valid() && this.config == config
      ensures State() == Initial(initialInput)
    {
      this.config := config;
      inputValue := initialInput;
      suggestions := [];
      selectedIndex := -1;
      dropdownHidden := true;
      renderedRows := 0;
      debounceTimer := None;
    }

    /** `disconnect`: the pending timer is cleared. */
    method Disconnect()
      requires Valid()
      modifies this
      ensures Valid() && State() == old(State()).(timer := None)
    {
      debounceTimer := None;
    }

    method HideSuggestions()
      modifies this
      ensures State() == Hide(old(State()))
    {
      dropdownHidden := true;
      suggestions := [];
      selectedIndex := -1;
    }

    /** `hideOnSubmit`. */
    method HideOnSubmit()
      modifies this
      ensures State() == Hide(old(State()))
    {
      HideSuggestions();
    }

    method Search(typed: string)
      requires Valid()
      modifies this
      ensures Valid() && State() == OnSearch(old(State()), typed, config)
    {
      inputValue := typed;
      var query := Trim(inputValue);
      if Utf16Length(query) < config.minLength {
        HideSuggestions();
        return;
      }
      debounceTimer := Some(query);
    }

    /** The debounce timer elapses; `request` is the query sent to the
        suggestion endpoint, if any. */
    method FireTimer() returns (request: Option<string>)
      requires Valid()
      modifies this
      ensures Valid() && Fired(State(), request) == OnTimer(old(State()), config)
    {
      request := None;
      if debounceTimer.None? {
        return;
      }
      var query := debounceTimer.value;
      debounceTimer := None;
      var normalized := Normalize(query);
      if Utf16Length(normalized) < config.minLength {
        HideSuggestions();
        return;
      }
      request := Some(normalized);
    }

    method DisplaySuggestions()
      requires forall i | 0 <= i < |suggestions| :: suggestions[i] != Null
      modifies this
      ensures Valid() && State() == Display(old(State()))
    {
      if |suggestions| == 0 {
        HideSuggestions();
        return;
      }
      dropdownHidden := false;
      selectedIndex := -1;
      renderedRows := |suggestions|;
    }

    method ReceiveResponse(response: Response)
      requires Valid()
      modifies this
      ensures Valid() && State() == OnResponse(old(State()), response)
    {
      if response.Failed? || !response.ok || response.body.Unparsable? {
        HideSuggestions();
        return;
      }
      suggestions := if response.body.JsonArray? then response.body.items else [];
      if HasNull(suggestions) {
        // rendering reads a property of null; the exception is caught
        HideSuggestions();
        return;
      }
      DisplaySuggestions();
    }

    /** A click on the row with data-index `index`; `submitted` says whether the
        form was submitted. */
    method SelectSuggestion(index: int) returns (submitted: bool)
      requires Valid()
      modifies this
      ensures Valid()
      ensures Selected(State(), submitted) == OnSelect(old(State()), index, config)
    {
      ghost var before := State();
      submitted := false;
      if 0 <= index < |suggestions| && Commits(suggestions[index]) {
        var searchQuery := Trim(SearchQuery(suggestions[index]).value);
        inputValue := searchQuery;
        HideSuggestions();
        submitted := config.inForm;
        assert Selected(State(), submitted) == OnSelect(before, index, config) by {
          SelectCommits(before, index, config);
        }
      }
    }

    method HandleKeydown(key: Key) returns (prevented: bool, submitted: bool)
      requires Valid()
      modifies this
      ensures Valid() && KeyResult(State(), prevented, submitted) == OnKey(old(State()), key, config)
    {
      prevented, submitted := false, false;
      if dropdownHidden || renderedRows == 0 {
        return;
      }
      match key
      case ArrowDown =>
        prevented := true;
        selectedIndex := Min(selectedIndex + 1, renderedRows - 1);
      case ArrowUp =>
        prevented := true;
        selectedIndex := Max(selectedIndex - 1, -1);
      case Enter =>
        if 0 <= selectedIndex < renderedRows {
          prevented := true;
          submitted := SelectSuggestion(selectedIndex);
        } else {
          HideSuggestions();
        }
      case Escape =>
        prevented := true;
        HideSuggestions();
      case OtherKey =>
    }

    method HandleClickOutside(target: ClickTarget)
      requires Valid()
      modifies this
      ensures Valid() && State() == OnClick(old(State()), target)
    {
      if dropdownHidden || target == InsideDropdown || target == InsideInput {
        return;
      }
      HideSuggestions();
    }
  }

  /** Deleting back below `minLength` hides the dropdown but does not cancel the
      timer started by the previous keystroke, so the request that timer sends is
      for the earlier text, not for what the input now holds. */
  lemma ShortQueryKeepsEarlierTimer(u0: Ui, long: string, short: string, cfg: Config)
    requires Utf16Length(Trim(long)) >= cfg.minLength
    requires Utf16Length(Normalize(Trim(long))) >= cfg.minLength
    requires Utf16Length(Trim(short)) < cfg.minLength
    ensures var u := OnSearch(OnSearch(u0, long, cfg), short, cfg);
      var f := OnTimer(u, cfg);
      u.input == short && u.hidden && u.timer == Some(Trim(long)) &&
      f.request == Some(Normalize(Trim(long))) && f.ui.input == short &&
      f.request != Some(Trim(short))
  {
  }
}
