/** The search hook: the query, filters and page the search page is
    on, the suggestion dropdown, the history and saved searches it shows,
    and the checks that gate a search. Search requests are returned as
    values instead of being sent. The search service's own history and
    saved searches travel in the state too, because the hook copies them
    only at certain moments: on mount and after its own edits, never
    after a search adds a query to the service's history. */
module SearchHook {
  import opened Options
  import opened Seqs
  import opened Text
  import opened Search

  datatype SearchState = SearchState(
    query: string,
    filters: Filters,
    page: int,
    suggestions: seq<string>,
    showSuggestions: bool,
    history: seq<string>,
    savedSearches: seq<SavedSearch>,
    serviceHistory: seq<string>,
    serviceSaved: seq<SavedSearch>)

  /** The hook's first render with the `initialQuery` and
      `initialFilters` options (by default "" and no filters), over a
      service that holds the given history and saved searches: page 1,
      no suggestions shown, and empty copies of the lists until mount. */
  function Initial(initialQuery: string, initialFilters: Filters,
                   serviceHistory: seq<string>, serviceSaved: seq<SavedSearch>): (r: SearchState)
    ensures r.query == initialQuery && r.filters == initialFilters && r.page == 1
    ensures r.suggestions == [] && !r.showSuggestions
    ensures r.history == [] && r.savedSearches == []
    ensures r.serviceHistory == serviceHistory && r.serviceSaved == serviceSaved
  {
    SearchState(initialQuery, initialFilters, 1, [], false, [], [], serviceHistory, serviceSaved)
  }

  /** The mount effect: with history enabled the hook copies the
      service's history and saved searches; otherwise it keeps its own. */
  function Mount(s: SearchState, enableHistory: bool): (r: SearchState)
    ensures enableHistory ==> r.history == s.serviceHistory && r.savedSearches == s.serviceSaved
    ensures enableHistory ==> r == s.(history := r.history, savedSearches := r.savedSearches)
    ensures !enableHistory ==> r == s
  {
    if enableHistory then s.(history := s.serviceHistory, savedSearches := s.serviceSaved) else s
  }

  /** A search the service completed: the query joins the service's
      history; the hook's own copy is left as it was. */
  function Searched(s: SearchState, q: string): (r: SearchState)
    ensures r.serviceHistory == AddToHistory(s.serviceHistory, q)
    ensures r == s.(serviceHistory := r.serviceHistory)
  {
    s.(serviceHistory := AddToHistory(s.serviceHistory, q))
  }

  /** `data?.totalPages || 1`: no response, or zero pages, counts as one. */
  function TotalPages(reported: Option<int>): (n: int)
    ensures reported.Some? && reported.value != 0 ==> n == reported.value
    ensures reported.None? || reported.value == 0 ==> n == 1
  {
    if reported.Some? && reported.value != 0 then reported.value else 1
  }

  // ----- pagination -----

  /** `nextPage`: one forward while before the last page. */
  function NextPage(s: SearchState, reported: Option<int>): (r: SearchState)
    ensures s.page < TotalPages(reported) ==> r == s.(page := s.page + 1)
    ensures s.page >= TotalPages(reported) ==> r == s
  {
    if s.page < TotalPages(reported) then s.(page := s.page + 1) else s
  }

  /** `previousPage`: one back while after the first page. */
  function PreviousPage(s: SearchState): (r: SearchState)
    ensures s.page > 1 ==> r == s.(page := s.page - 1)
    ensures s.page <= 1 ==> r == s
  {
    if s.page > 1 then s.(page := s.page - 1) else s
  }

  /** `goToPage`: only a page between 1 and the last is accepted. */
  function GoToPage(s: SearchState, p: int, reported: Option<int>): (r: SearchState)
    ensures 1 <= p <= TotalPages(reported) ==> r == s.(page := p)
    ensures !(1 <= p <= TotalPages(reported)) ==> r == s
  {
    if 1 <= p <= TotalPages(reported) then s.(page := p) else s
  }

  /** The pager never leaves page 1 behind and never passes the last
      page from inside the range: a page in [1, total] stays there. */
  lemma PagerStaysInRange(s: SearchState, p: int, reported: Option<int>)
    requires 1 <= s.page <= TotalPages(reported)
    ensures 1 <= NextPage(s, reported).page <= TotalPages(reported)
    ensures 1 <= PreviousPage(s).page <= TotalPages(reported)
    ensures 1 <= GoToPage(s, p, reported).page <= TotalPages(reported)
  {
  }

  /** Whatever the page count, the page never drops below 1. */
  lemma PageAtLeastOne(s: SearchState, p: int, reported: Option<int>)
    requires s.page >= 1
    ensures NextPage(s, reported).page >= 1 && PreviousPage(s).page >= 1
    ensures GoToPage(s, p, reported).page >= 1
  {
  }

  // ----- updates -----

  /** `updateQuery`: a new query starts on page 1. */
  function UpdateQuery(s: SearchState, q: string): (r: SearchState)
    ensures r == s.(query := q, page := 1)
  {
    s.(query := q, page := 1)
  }

  /** `updateFilters`: new filters start on page 1. */
  function UpdateFilters(s: SearchState, f: Filters): (r: SearchState)
    ensures r == s.(filters := f, page := 1)
  {
    s.(filters := f, page := 1)
  }

  /** The filters with one key set to `v` (undefined included). */
  function SetField(f: Filters, k: FilterKey, v: Option<string>): (g: Filters)
    ensures Field(g, k) == v
    ensures forall j | j != k :: Field(g, j) == Field(f, j)
  {
    match k
    case Category => f.(category := v)
    case Difficulty => f.(difficulty := v)
    case Status => f.(status := v)
    case DateFrom => f.(dateFrom := v)
    case DateTo => f.(dateTo := v)
    case Type => f.(kind := v)
  }

  /** `updateFilter`: one key changes, the others keep their values, and
      the search starts on page 1. */
  function UpdateFilter(s: SearchState, k: FilterKey, v: Option<string>): (r: SearchState)
    ensures Field(r.filters, k) == v && r.page == 1
    ensures forall j | j != k :: Field(r.filters, j) == Field(s.filters, j)
    ensures r == s.(filters := r.filters, page := 1)
  {
    s.(filters := SetField(s.filters, k, v), page := 1)
  }

  /** `clearFilters`: no filter, page 1. */
  function ClearFilters(s: SearchState): (r: SearchState)
    ensures !HasFilters(r.filters) && r.page == 1
    ensures r == s.(filters := NoFilters, page := 1)
  {
    s.(filters := NoFilters, page := 1)
  }

  /** `clearSearch`: empty query, no filters, page 1, no suggestions and
      the dropdown hidden; history and saved searches stay. */
  function ClearSearch(s: SearchState): (r: SearchState)
    ensures r.query == "" && !HasFilters(r.filters) && r.page == 1
    ensures r.suggestions == [] && !r.showSuggestions
    ensures r.history == s.history && r.savedSearches == s.savedSearches
  {
    s.(query := "", filters := NoFilters, page := 1, suggestions := [], showSuggestions := false)
  }

  /** Every update resets the page, so none can leave the user on a page
      beyond the first after changing what is searched. */
  lemma UpdatesResetPage(s: SearchState, q: string, f: Filters, k: FilterKey, v: Option<string>)
    ensures UpdateQuery(s, q).page == 1 && UpdateFilters(s, f).page == 1
    ensures UpdateFilter(s, k, v).page == 1 && ClearFilters(s).page == 1 && ClearSearch(s).page == 1
  {
  }

  /** `selectSuggestion` and `selectFromHistory`: take the text as the
      query, hide the dropdown, go to page 1. */
  function SelectQueryText(s: SearchState, text: string): (r: SearchState)
    ensures r.query == text && !r.showSuggestions && r.page == 1
    ensures r.filters == s.filters && r.history == s.history
  {
    s.(query := text, showSuggestions := false, page := 1)
  }

  // ----- searching -----

  /** The automatic search runs only when switched on and the
      (debounced) text would itself count as a query. */
  function AutoSearchEnabled(autoSearch: bool, debouncedQuery: string): (b: bool)
    ensures b <==> autoSearch && HasQuery(Initial(debouncedQuery, NoFilters, [], []))
    ensures b ==> debouncedQuery != ""
  {
    autoSearch && |debouncedQuery| >= 2
  }

  /** The request a search sends: query, filters and page. */
  datatype Request = Request(query: string, filters: Filters, page: int)

  /** The automatic search query: when enabled it asks for the debounced
      text with the current filters and page, and its success records the
      text in the service's history. */
  function AutoSearch(s: SearchState, autoSearch: bool, debouncedQuery: string, succeeded: bool)
    : (r: (SearchState, Option<Request>))
    ensures r.1.Some? <==> AutoSearchEnabled(autoSearch, debouncedQuery)
    ensures r.1.Some? ==> r.1.value == Request(debouncedQuery, s.filters, s.page)
    ensures r.1.Some? && succeeded ==> r.0 == Searched(s, debouncedQuery)
    ensures r.1.None? || !succeeded ==> r.0 == s
  {
    if !AutoSearchEnabled(autoSearch, debouncedQuery) then (s, None)
    else ((if succeeded then Searched(s, debouncedQuery) else s), Some(Request(debouncedQuery, s.filters, s.page)))
  }

  /** `performSearch`: an empty argument falls back to the current query
      or filters; a query under two characters sends nothing. A sent
      search asks for page 1, and its success (the outcome) moves the
      page back to 1 (the service also records the query in its history). */
  function PerformSearch(s: SearchState, searchQuery: Option<string>, searchFilters: Option<Filters>, succeeded: bool)
    : (r: (SearchState, Option<Request>))
    ensures var q := if searchQuery.Some? && searchQuery.value != "" then searchQuery.value else s.query;
      && (|q| < 2 <==> r.1.None?)
      && (r.1.Some? ==> r.1.value.query == q && r.1.value.page == 1)
    ensures r.1.Some? && searchFilters.None? ==> r.1.value.filters == s.filters
    ensures r.1.Some? && searchFilters.Some? ==> r.1.value.filters == searchFilters.value
    ensures r.1.Some? && succeeded ==> r.0 == Searched(s, r.1.value.query).(page := 1)
    ensures r.1.None? || !succeeded ==> r.0 == s
  {
    var q := if searchQuery.Some? && searchQuery.value != "" then searchQuery.value else s.query;
    var f := if searchFilters.Some? then searchFilters.value else s.filters;
    if |q| < 2 then (s, None)
    else ((if succeeded then Searched(s, q).(page := 1) else s), Some(Request(q, f, 1)))
  }

  /** `searchQuizzes`, `searchProofs` and `searchUsers`: the given query
      or else the current one, with the current filters narrowed to one
      result type, on the current page; no length check. */
  function SearchOfType(s: SearchState, searchQuery: Option<string>, kind: string, succeeded: bool)
    : (r: (SearchState, Request))
    ensures var q := if searchQuery.Some? && searchQuery.value != "" then searchQuery.value else s.query;
      r.1 == Request(q, s.filters.(kind := Some(kind)), s.page)
    ensures forall k | k != Type :: Field(r.1.filters, k) == Field(s.filters, k)
    ensures succeeded ==> r.0 == Searched(s, r.1.query)
    ensures !succeeded ==> r.0 == s
  {
    var q := if searchQuery.Some? && searchQuery.value != "" then searchQuery.value else s.query;
    ((if succeeded then Searched(s, q) else s), Request(q, s.filters.(kind := Some(kind)), s.page))
  }

  // ----- computed values -----

  /** `hasQuery`: at least two characters, which is exactly when a
      search with no argument would be sent. */
  function HasQuery(s: SearchState): (b: bool)
    ensures b <==> PerformSearch(s, None, None, false).1.Some?
    ensures b ==> s.query != ""
  {
    |s.query| >= 2
  }

  /** `hasFilters`: some filter is neither undefined nor empty, which is
      exactly when the filters add a parameter to a search link. */
  function HasFilters(f: Filters): (b: bool)
    ensures b <==> exists k :: Given(Field(f, k))
    ensures b <==> FilterParams(f, FilterKeys) != []
  {
    SomeKeyGivenMeansParams(f);
    exists k :: Given(Field(f, k))
  }

  lemma SomeKeyGivenMeansParams(f: Filters)
    ensures (exists k :: Given(Field(f, k))) <==> FilterParams(f, FilterKeys) != []
  {
    FilterParamsEmpty(f, FilterKeys);
    if exists k :: Given(Field(f, k)) {
      var k :| Given(Field(f, k));
      var i := KeyIndex(k);
      assert Given(Field(f, FilterKeys[i]));
    } else {
      forall i | 0 <= i < |FilterKeys| ensures !Given(Field(f, FilterKeys[i])) {
      }
    }
  }

  /** A set of filters counts as "filtering" exactly when it adds a
      parameter to the search link, and exactly when it differs from no
      filters once empty values are dropped. */
  lemma HasFiltersMeansParams(q: string, f: Filters)
    ensures HasFilters(f) <==> |BuildSearchParams(q, f)| > 1
    ensures HasFilters(f) <==> Normalize(f) != NoFilters
  {
    var g := Normalize(f);
    if HasFilters(f) {
      var k :| Given(Field(f, k));
      assert Field(g, k) != Field(NoFilters, k);
    } else {
      assert g.category == Field(g, Category) == None;
      assert g.difficulty == Field(g, Difficulty) == None;
      assert g.status == Field(g, Status) == None;
      assert g.dateFrom == Field(g, DateFrom) == None;
      assert g.dateTo == Field(g, DateTo) == None;
      assert g.kind == Field(g, Type) == None;
    }
  }

  /** Where a key sits in the fixed key order. */
  function KeyIndex(k: FilterKey): (i: nat)
    ensures i < |FilterKeys| && FilterKeys[i] == k
  {
    match k
    case Category => 0
    case Difficulty => 1
    case Status => 2
    case DateFrom => 3
    case DateTo => 4
    case Type => 5
  }

  /** The filter keys add no parameter exactly when none of them is given. */
  lemma {:induction false} FilterParamsEmpty(f: Filters, ks: seq<FilterKey>)
    ensures FilterParams(f, ks) == [] <==> forall i | 0 <= i < |ks| :: !Given(Field(f, ks[i]))
  {
    if ks != [] {
      FilterParamsEmpty(f, ks[1..]);
      assert forall i | 1 <= i < |ks| :: ks[i] == ks[1..][i - 1];
    }
  }

  /** A history entry offered for the typed query: it contains the query,
      ignoring case, and is not the query itself. */
  predicate HistoryMatch(query: string, h: string) {
    IncludesIgnoreCase(h, query) && h != query
  }

  function MatchesQuery(query: string): string -> bool {
    h => HistoryMatch(query, h)
  }

  const MaxShownHistory: nat := 10

  /** `filteredHistory`: with no query the ten most recent entries;
      otherwise the first ten matching entries, in history order. */
  function FilteredHistory(history: seq<string>, query: string): (r: seq<string>)
    ensures |r| <= MaxShownHistory
    ensures forall h | h in r :: h in history
    ensures query != "" ==> forall h | h in r :: HistoryMatch(query, h)
    ensures query == "" ==> r == history[..if |history| < MaxShownHistory then |history| else MaxShownHistory]
    ensures query != "" && Count(history, MatchesQuery(query)) <= MaxShownHistory ==>
      forall h :: h in r <==> h in history && HistoryMatch(query, h)
    ensures query != "" ==>
      && |r| == (if Count(history, MatchesQuery(query)) < MaxShownHistory
                 then Count(history, MatchesQuery(query)) else MaxShownHistory)
      && r == Filter(history, MatchesQuery(query))[..|r|]
  {
    var pool := if query == "" then history else Filter(history, MatchesQuery(query));
    var r := Take(pool, MaxShownHistory);
    assert forall h | h in r :: h in pool;
    r
  }

  /** Shown entries never repeat when the history does not. */
  lemma FilteredHistoryNoDup(history: seq<string>, query: string)
    requires NoDup(history)
    ensures NoDup(FilteredHistory(history, query))
  {
    var pool := if query == "" then history else Filter(history, MatchesQuery(query));
    if query != "" {
      NoDupFilter(history, MatchesQuery(query));
    }
    var r := FilteredHistory(history, query);
    assert r == pool[..|r|];
  }

  /** `filteredSuggestions`: nothing without a query, else the
      suggestions that contain it, ignoring case, other than the query. */
  function FilteredSuggestions(suggestions: seq<string>, query: string): (r: seq<string>)
    ensures query == "" ==> r == []
    ensures query != "" ==> forall x :: x in r <==> x in suggestions && HistoryMatch(query, x)
    ensures query != "" ==>
      forall x :: multiset(r)[x] == if HistoryMatch(query, x) then multiset(suggestions)[x] else 0
  {
    if query == "" then []
    else
      forall x ensures multiset(Filter(suggestions, MatchesQuery(query)))[x] ==
        if HistoryMatch(query, x) then multiset(suggestions)[x] else 0
      {
        FilterMultiplicity(suggestions, MatchesQuery(query), x);
      }
      Filter(suggestions, MatchesQuery(query))
  }

  /** The dropdown keeps the order of the suggestions: the offers from a
      list split in two are the offers from the first part followed by
      those from the second, and a single suggestion is offered exactly
      when it matches. */
  lemma FilteredSuggestionsKeepOrder(a: seq<string>, b: seq<string>, query: string, x: string)
    ensures FilteredSuggestions(a + b, query) == FilteredSuggestions(a, query) + FilteredSuggestions(b, query)
    ensures FilteredSuggestions([x], query) == if query != "" && HistoryMatch(query, x) then [x] else []
  {
    if query != "" {
      FilterConcat(a, b, MatchesQuery(query));
    }
  }

  // ----- history and saved searches -----

  /** `removeFromHistory`: the service drops the entry and the hook
      shows the service's history afresh, so it also picks up every query
      the service recorded since the hook last copied it. */
  function RemoveHistoryEntry(s: SearchState, q: string): (r: SearchState)
    ensures r.history == r.serviceHistory
    ensures q !in r.history
    ensures forall h | h != q :: h in r.history <==> h in s.serviceHistory
    ensures r == s.(history := r.history, serviceHistory := r.serviceHistory)
  {
    var h := RemoveFromHistory(s.serviceHistory, q);
    s.(history := h, serviceHistory := h)
  }

  /** `clearHistory`: the service's history and the hook's are emptied. */
  function ClearHistoryEntries(s: SearchState): (r: SearchState)
    ensures r.history == [] && r.serviceHistory == []
    ensures r == s.(history := [], serviceHistory := [])
  {
    s.(history := ClearHistory(), serviceHistory := ClearHistory())
  }

  /** `saveCurrentSearch`: a blank query saves nothing; otherwise the
      service saves the query and filters under the name and the hook
      shows the service's list afresh. */
  function SaveCurrentSearch(s: SearchState, name: string): (r: SearchState)
    ensures IsBlank(s.query) ==> r == s
    ensures !IsBlank(s.query) ==>
      && r == s.(savedSearches := r.savedSearches, serviceSaved := r.serviceSaved)
      && r.savedSearches == r.serviceSaved
      && var kept := RemoveSavedSearch(s.serviceSaved, name);
         && |r.savedSearches| == (if |kept| + 1 <= MaxSaved then |kept| + 1 else MaxSaved)
         && r.savedSearches[0] == SavedSearch(s.query, s.filters, name)
         && forall i | 1 <= i < |r.savedSearches| :: r.savedSearches[i] == kept[i - 1]
  {
    if IsBlank(s.query) then s
    else
      var saved := SaveSearch(s.serviceSaved, s.query, s.filters, name);
      s.(savedSearches := saved, serviceSaved := saved)
  }

  /** `removeSavedSearch`: the service drops every entry of that name and
      the hook shows the service's list afresh. */
  function RemoveSavedSearchEntry(s: SearchState, name: string): (r: SearchState)
    ensures r.savedSearches == r.serviceSaved
    ensures forall i | 0 <= i < |r.savedSearches| :: r.savedSearches[i].name != name
    ensures forall x :: x in r.savedSearches <==> x in s.serviceSaved && x.name != name
    ensures r == s.(savedSearches := r.savedSearches, serviceSaved := r.serviceSaved)
  {
    var saved := RemoveSavedSearch(s.serviceSaved, name);
    assert forall i | 0 <= i < |saved| :: saved[i] in saved;
    s.(savedSearches := saved, serviceSaved := saved)
  }

  /** A search updates the service's history but not the list the hook
      shows; the next removal of any other entry brings the searched
      query into view. */
  lemma RemovalShowsEarlierSearches(s: SearchState, q: string, other: string)
    requires |q| >= 2 && !IsBlank(q) && q != other
    ensures var searched := PerformSearch(s, Some(q), None, true).0;
      && searched.history == s.history
      && q in searched.serviceHistory
      && q in RemoveHistoryEntry(searched, other).history
  {
    var searched := PerformSearch(s, Some(q), None, true).0;
    assert searched.serviceHistory == AddToHistory(s.serviceHistory, q);
    if q !in s.serviceHistory {
      assert searched.serviceHistory[0] == q;
    }
  }

  /** Every hook operation keeps the service's history free of repeats
      and within 50 entries, and a history the hook copies after its own
      edits is then free of repeats too. */
  lemma ServiceHistoryStaysValid(s: SearchState, q: Option<string>, kind: string, d: string, x: string, ok: bool, on: bool)
    requires ValidHistory(s.serviceHistory)
    ensures ValidHistory(PerformSearch(s, q, None, ok).0.serviceHistory)
    ensures ValidHistory(AutoSearch(s, on, d, ok).0.serviceHistory)
    ensures ValidHistory(SearchOfType(s, q, kind, ok).0.serviceHistory)
    ensures ValidHistory(RemoveHistoryEntry(s, x).serviceHistory)
    ensures ValidHistory(RemoveHistoryEntry(s, x).history)
    ensures ValidHistory(ClearHistoryEntries(s).serviceHistory)
    ensures ValidHistory(Mount(s, on).serviceHistory)
    ensures on ==> ValidHistory(Mount(s, on).history)
  {
    var h := s.serviceHistory;
    var q1 := if q.Some? && q.value != "" then q.value else s.query;
    HistoryOpPreservesValid(h, Added(q1));
    HistoryOpPreservesValid(h, Added(d));
    HistoryOpPreservesValid(h, Removed(x));
    HistoryOpPreservesValid(h, Cleared);
  }

  /** `loadSavedSearch`: query and filters from the entry, page 1. */
  function LoadSavedSearch(s: SearchState, saved: SavedSearch): (r: SearchState)
    ensures r.query == saved.query && r.filters == saved.filters && r.page == 1
    ensures r == s.(query := r.query, filters := r.filters, page := 1)
  {
    s.(query := saved.query, filters := saved.filters, page := 1)
  }

  // ----- links -----

  /** `getSearchUrl`: the current query and filters as parameters. */
  function GetSearchParams(s: SearchState): Params {
    BuildSearchParams(s.query, s.filters)
  }

  /** `loadFromUrl`: query and filters read from the parameters, page 1. */
  function LoadFromParams(s: SearchState, ps: Params): (r: SearchState)
    ensures r.page == 1 && r.query == ParseSearchParams(ps).0 && r.filters == ParseSearchParams(ps).1
    ensures r == s.(query := r.query, filters := r.filters, page := 1)
  {
    var (q, f) := ParseSearchParams(ps);
    s.(query := q, filters := f, page := 1)
  }

  /** Loading the page's own link restores its query and its filters
      (empty values dropped) on page 1; the rest of the state stays. */
  lemma LinkRoundTrip(s: SearchState)
    ensures LoadFromParams(s, GetSearchParams(s)) == s.(filters := Normalize(s.filters), page := 1)
  {
    SearchParamsRoundTrip(s.query, s.filters);
  }
}
