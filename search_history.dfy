/**
 * The browser-side search history: the most recent city searches, newest
 * first, without two entries that differ only in letter case, capped at
 * `maxItems` (5 unless the markup overrides it), and kept under one
 * localStorage key.
 *
 * Case-insensitive comparison goes through `lower`, the page's
 * `toLowerCase`; every property below holds for any such mapping.
 */
module SearchHistory {
  import opened Wrappers
  import JsText

  /** No two entries are equal ignoring case. */
  predicate NoCaseDuplicates(h: seq<string>, lower: string -> string) {
    forall i, j | 0 <= i < j < |h| :: lower(h[i]) != lower(h[j])
  }

  /** `a` is `b` with some entries left out, the rest in their order. */
  predicate IsSubsequence<T(==)>(a: seq<T>, b: seq<T>)
    decreases |b|
  {
    if a == [] then true
    else if b == [] then false
    else if a[0] == b[0] then IsSubsequence(a[1..], b[1..])
    else IsSubsequence(a, b[1..])
  }

  /** `history.filter(item => item.toLowerCase() !== city.toLowerCase())`. */
  function Without(h: seq<string>, city: string, lower: string -> string): (r: seq<string>)
    ensures |r| <= |h|
    ensures forall x :: x in r <==> x in h && lower(x) != lower(city)
  {
    if h == [] then []
    else if lower(h[0]) != lower(city) then [h[0]] + Without(h[1..], city, lower)
    else Without(h[1..], city, lower)
  }

  /** The filter keeps every copy of each entry that does not match the city
      ignoring case, and no copy of one that does. */
  lemma {:induction false} WithoutCounts(h: seq<string>, city: string, lower: string -> string)
    ensures forall x ::
      multiset(Without(h, city, lower))[x] == (if lower(x) != lower(city) then multiset(h)[x] else 0)
  {
    if h != [] {
      WithoutCounts(h[1..], city, lower);
      assert h == [h[0]] + h[1..];
    }
  }

  /** `s.slice(0, end)`: a negative `end` counts back from the end of `s`. */
  function Slice<T>(s: seq<T>, end: int): (r: seq<T>)
    ensures |r| <= |s| && r == s[..|r|]
    ensures end >= 0 ==> |r| == if end <= |s| then end else |s|
    ensures end < 0 ==> |r| == if |s| + end >= 0 then |s| + end else 0
  {
    if end >= 0 then (if end <= |s| then s[..end] else s)
    else if |s| + end >= 0 then s[..|s| + end]
    else []
  }

  /** The list `addToHistory(city)` stores, given the list it read. */
  function Added(h: seq<string>, city: string, maxItems: int, lower: string -> string): seq<string> {
    Slice([city] + Without(h, city, lower), maxItems)
  }

  /** The city just added comes first. */
  lemma AddedHead(h: seq<string>, city: string, maxItems: int, lower: string -> string)
    requires maxItems >= 1
    ensures |Added(h, city, maxItems, lower)| >= 1 && Added(h, city, maxItems, lower)[0] == city
  {
  }

  /** No entry after the head matches the new city ignoring case. */
  lemma AddedHasNoOtherCopy(h: seq<string>, city: string, maxItems: int, lower: string -> string)
    ensures forall i | 1 <= i < |Added(h, city, maxItems, lower)| ::
      lower(Added(h, city, maxItems, lower)[i]) != lower(city)
  {
    var r := Added(h, city, maxItems, lower);
    var w := Without(h, city, lower);
    forall i | 1 <= i < |r| ensures lower(r[i]) != lower(city) {
      assert r[i] == ([city] + w)[i] == w[i - 1];
      assert w[i - 1] in w;
    }
  }

  /** The list never grows beyond `maxItems`, nor by more than one entry. */
  lemma AddedLength(h: seq<string>, city: string, maxItems: int, lower: string -> string)
    ensures maxItems >= 0 ==> |Added(h, city, maxItems, lower)| <= maxItems
    ensures |Added(h, city, maxItems, lower)| <= |h| + 1
  {
  }

  lemma {:induction false} WithoutIsSubsequence(h: seq<string>, city: string, lower: string -> string)
    ensures IsSubsequence(Without(h, city, lower), h)
  {
    if h != [] {
      WithoutIsSubsequence(h[1..], city, lower);
      var w := Without(h, city, lower);
      if lower(h[0]) == lower(city) && w != [] {
        assert w[0] in w;
      }
    }
  }

  /** Besides the new head, the list holds the first entries of the old list
      that do not match the city ignoring case, in their old order. */
  lemma AddedKeepsOrder(h: seq<string>, city: string, maxItems: int, lower: string -> string)
    requires maxItems >= 1
    ensures var r := Added(h, city, maxItems, lower);
      r[1..] == Without(h, city, lower)[..|r| - 1] && IsSubsequence(Without(h, city, lower), h)
  {
    WithoutIsSubsequence(h, city, lower);
    var r := Added(h, city, maxItems, lower);
    var w := Without(h, city, lower);
    assert r == ([city] + w)[..|r|];
  }

  /** When the cap leaves room, no old entry is lost except the matches. */
  lemma AddedBelowCap(h: seq<string>, city: string, maxItems: int, lower: string -> string)
    requires maxItems > |h|
    ensures Added(h, city, maxItems, lower) == [city] + Without(h, city, lower)
    ensures forall x :: x in Added(h, city, maxItems, lower) <==> x == city || (x in h && lower(x) != lower(city))
  {
    var w := Without(h, city, lower);
    assert |[city] + w| <= maxItems;
  }

  lemma {:induction false} WithoutKeepsNoDuplicates(h: seq<string>, city: string, lower: string -> string)
    requires NoCaseDuplicates(h, lower)
    ensures NoCaseDuplicates(Without(h, city, lower), lower)
  {
    if h != [] {
      WithoutKeepsNoDuplicates(h[1..], city, lower);
      var w := Without(h[1..], city, lower);
      if lower(h[0]) != lower(city) {
        var r := [h[0]] + w;
        forall i, j | 0 <= i < j < |r| ensures lower(r[i]) != lower(r[j]) {
          if i == 0 {
            assert r[j] == w[j - 1] && w[j - 1] in w;
            var k :| 1 <= k < |h| && h[k] == r[j];
            assert lower(h[0]) != lower(h[k]);
          } else {
            assert r[i] == w[i - 1] && r[j] == w[j - 1];
          }
        }
      }
    }
  }

  /** A history without case-insensitive duplicates keeps that property. */
  lemma AddedKeepsNoDuplicates(h: seq<string>, city: string, maxItems: int, lower: string -> string)
    requires NoCaseDuplicates(h, lower)
    ensures NoCaseDuplicates(Added(h, city, maxItems, lower), lower)
  {
    WithoutKeepsNoDuplicates(h, city, lower);
    var w := Without(h, city, lower);
    var s := [city] + w;
    forall i, j | 0 <= i < j < |s| ensures lower(s[i]) != lower(s[j]) {
      if i == 0 {
        assert s[j] == w[j - 1] && w[j - 1] in w;
      } else {
        assert s[i] == w[i - 1] && s[j] == w[j - 1];
      }
    }
    var r := Added(h, city, maxItems, lower);
    forall i, j | 0 <= i < j < |r| ensures lower(r[i]) != lower(r[j]) {
      assert r[i] == s[i] && r[j] == s[j];
    }
  }

  lemma {:induction false} WithoutOfNonMatching(h: seq<string>, city: string, lower: string -> string)
    requires forall i | 0 <= i < |h| :: lower(h[i]) != lower(city)
    ensures Without(h, city, lower) == h
  {
    if h != [] {
      WithoutOfNonMatching(h[1..], city, lower);
    }
  }

  /** Adding the same city twice in a row stores what adding it once does. */
  lemma AddedIdempotent(h: seq<string>, city: string, maxItems: int, lower: string -> string)
    requires maxItems >= 0
    ensures Added(Added(h, city, maxItems, lower), city, maxItems, lower) == Added(h, city, maxItems, lower)
  {
    var r := Added(h, city, maxItems, lower);
    if r != [] {
      AddedHasNoOtherCopy(h, city, maxItems, lower);
      WithoutOfNonMatching(r[1..], city, lower);
      assert Without(r, city, lower) == Without(r[1..], city, lower);
      assert [city] + r[1..] == r;
    }
  }

  /**
   * The history controller. `stored` is the localStorage entry
   * 'weatherSearchHistory' as the list it encodes; `None` when the key is
   * absent.
   */
  class SearchHistoryController {
    const maxItems: int
    const lower: string -> string
    var stored: Option<seq<string>>

    /** `connect`: the controller reads whatever is already stored. */
    constructor (maxItems: int, lower: string -> string, stored: Option<seq<string>>)
      ensures this.maxItems == maxItems && this.lower == lower && this.stored == stored
    {
      this.maxItems := maxItems;
      this.lower := lower;
      this.stored := stored;
    }

    /** `getHistory`: an absent key reads as the empty list. */
    function GetHistory(): (h: seq<string>)
      reads this
      ensures stored.None? ==> h == []
      ensures stored.Some? ==> h == stored.value
    {
      stored.GetOr([])
    }

    method AddToHistory(city: string)
      modifies this
      ensures stored == Some(Added(old(GetHistory()), city, maxItems, lower))
      ensures maxItems >= 1 ==> GetHistory()[0] == city
      ensures maxItems >= 0 ==> |GetHistory()| <= maxItems
      ensures old(NoCaseDuplicates(GetHistory(), lower)) ==> NoCaseDuplicates(GetHistory(), lower)
    {
      ghost var before := GetHistory();
      var history := GetHistory();
      history := Without(history, city, lower);
      history := [city] + history;
      history := Slice(history, maxItems);
      stored := Some(history);
      AddedLength(before, city, maxItems, lower);
      if NoCaseDuplicates(before, lower) {
        AddedKeepsNoDuplicates(before, city, maxItems, lower);
      }
    }

    /** `saveSearch`: the trimmed input is added unless it is empty. */
    method SaveSearch(inputValue: string)
      modifies this
      ensures JsText.Trim(inputValue) == [] ==> stored == old(stored)
      ensures JsText.Trim(inputValue) != [] ==>
        stored == Some(Added(old(GetHistory()), JsText.Trim(inputValue), maxItems, lower))
    {
      var city := JsText.Trim(inputValue);
      if city != [] {
        AddToHistory(city);
      }
    }

    /** `clearHistory`: the key is removed, so the history reads as empty. */
    method ClearHistory()
      modifies this
      ensures stored == None && GetHistory() == []
    {
      stored := None;
    }
  }
}
