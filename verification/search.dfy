/** The search service's local state: a de-duplicated, newest-first
    history of at most 50 queries, up to 20 saved searches keyed by name,
    and the query-string form of a search (`q` plus six optional filters).
    The HTTP search itself and storage are outside this model; a query
    string is an ordered list of key/value pairs, before percent-encoding. */
module Search {
  import opened Options
  import opened Seqs
  import opened Text

  // ----- history -----

  const MaxHistory: nat := 50

  /** `addToHistory`: a blank query or one already present changes
      nothing; otherwise the query goes in front and the list is cut to
      50 entries. */
  function AddToHistory(h: seq<string>, q: string): (r: seq<string>)
    ensures IsBlank(q) || q in h ==> r == h
    ensures !IsBlank(q) && q !in h ==>
      && |r| == (if |h| < MaxHistory then |h| + 1 else MaxHistory)
      && r[0] == q
      && forall i | 1 <= i < |r| :: r[i] == h[i - 1]
  {
    if IsBlank(q) || q in h then h else Take([q] + h, MaxHistory)
  }

  /** `removeFromHistory`: every copy of the query goes, the rest keep
      their order. */
  function RemoveFromHistory(h: seq<string>, q: string): (r: seq<string>)
    ensures q !in r
    ensures forall x :: x in r <==> x in h && x != q
    ensures |r| == |h| - Count(h, EqualTo(q))
  {
    RemoveAll(h, q)
  }

  /** Removal keeps the survivors in order: removing from a
      concatenation removes from each part. */
  lemma RemoveFromHistoryKeepsOrder(a: seq<string>, b: seq<string>, q: string)
    ensures RemoveFromHistory(a + b, q) == RemoveFromHistory(a, q) + RemoveFromHistory(b, q)
  {
    RejectConcat(a, b, EqualTo(q));
  }

  /** `clearHistory`. */
  function ClearHistory(): (r: seq<string>)
    ensures |r| == 0
  {
    []
  }

  /** What the history always satisfies once it is built by the
      operations above: no query twice, at most 50 entries. */
  predicate ValidHistory(h: seq<string>) {
    NoDup(h) && |h| <= MaxHistory
  }

  datatype HistoryOp = Added(q: string) | Removed(q: string) | Cleared

  function ApplyHistoryOp(h: seq<string>, op: HistoryOp): seq<string> {
    match op
    case Added(q) => AddToHistory(h, q)
    case Removed(q) => RemoveFromHistory(h, q)
    case Cleared => ClearHistory()
  }

  /** Each history operation preserves ValidHistory. */
  lemma HistoryOpPreservesValid(h: seq<string>, op: HistoryOp)
    requires ValidHistory(h)
    ensures ValidHistory(ApplyHistoryOp(h, op))
  {
    match op
    case Added(q) =>
      if !IsBlank(q) && q !in h {
        var r := AddToHistory(h, q);
        forall i, j | 0 <= i < j < |r| ensures r[i] != r[j] {
          if i == 0 {
            assert r[j] == h[j - 1];
          } else {
            assert r[i] == h[i - 1] && r[j] == h[j - 1];
          }
        }
      }
    case Removed(q) =>
      NoDupReject(h, EqualTo(q));
    case Cleared =>
  }

  /** Any run of history operations from any valid start, the empty
      history included, ends in a valid history. */
  lemma {:induction false} HistoryOpsPreserveValid(h: seq<string>, ops: seq<HistoryOp>)
    requires ValidHistory(h)
    ensures ValidHistory(ApplyHistoryOps(h, ops))
    decreases |ops|
  {
    if ops != [] {
      HistoryOpPreservesValid(h, ops[0]);
      HistoryOpsPreserveValid(ApplyHistoryOp(h, ops[0]), ops[1..]);
    }
  }

  function ApplyHistoryOps(h: seq<string>, ops: seq<HistoryOp>): seq<string>
    decreases |ops|
  {
    if ops == [] then h else ApplyHistoryOps(ApplyHistoryOp(h, ops[0]), ops[1..])
  }

  // ----- filters and the query string -----

  datatype FilterKey = Category | Difficulty | Status | DateFrom | DateTo | Type

  /** The six filter keys, in the order the parser reads them. */
  const FilterKeys: seq<FilterKey> := [Category, Difficulty, Status, DateFrom, DateTo, Type]

  function KeyName(k: FilterKey): string {
    match k
    case Category => "category"
    case Difficulty => "difficulty"
    case Status => "status"
    case DateFrom => "dateFrom"
    case DateTo => "dateTo"
    case Type => "type"
  }

  /** A `SearchFilters` object: each field present or undefined. */
  datatype Filters = Filters(
    category: Option<string>, difficulty: Option<string>, status: Option<string>,
    dateFrom: Option<string>, dateTo: Option<string>, kind: Option<string>)

  const NoFilters := Filters(None, None, None, None, None, None)

  function Field(f: Filters, k: FilterKey): Option<string> {
    match k
    case Category => f.category
    case Difficulty => f.difficulty
    case Status => f.status
    case DateFrom => f.dateFrom
    case DateTo => f.dateTo
    case Type => f.kind
  }

  /** A value that is neither undefined nor the empty string. */
  predicate Given(v: Option<string>) {
    v.Some? && v.value != ""
  }

  /** The filters with every empty-string value turned into undefined. */
  function Normalize(f: Filters): (g: Filters)
    ensures forall k :: Field(g, k) == if Given(Field(f, k)) then Field(f, k) else None
    ensures forall k :: Given(Field(g, k)) == Given(Field(f, k))
  {
    var g := Filters(Blank(f.category), Blank(f.difficulty), Blank(f.status),
                     Blank(f.dateFrom), Blank(f.dateTo), Blank(f.kind));
    BlankEachField(f, g);
    g
  }

  lemma BlankEachField(f: Filters, g: Filters)
    requires g == Filters(Blank(f.category), Blank(f.difficulty), Blank(f.status),
                          Blank(f.dateFrom), Blank(f.dateTo), Blank(f.kind))
    ensures forall k :: Field(g, k) == Blank(Field(f, k))
  {
    forall k ensures Field(g, k) == Blank(Field(f, k)) {
      match k
      case Category =>
      case Difficulty =>
      case Status =>
      case DateFrom =>
      case DateTo =>
      case Type =>
    }
  }

  /** An empty-string value becomes undefined. */
  function Blank(v: Option<string>): (w: Option<string>)
    ensures Given(w) == Given(v)
    ensures w.Some? ==> w == v
  {
    if Given(v) then v else None
  }

  type Params = seq<(string, string)>

  /** Position `i` holds the first pair stored under `key`. */
  predicate FirstUnder(ps: Params, key: string, i: int) {
    0 <= i < |ps| && ps[i].0 == key && forall j | 0 <= j < i :: ps[j].0 != key
  }

  /** `URLSearchParams.get`: the first value stored under `key`. */
  function Get(ps: Params, key: string): (v: Option<string>)
    ensures v.Some? ==> (key, v.value) in ps
    ensures v.None? ==> forall i | 0 <= i < |ps| :: ps[i].0 != key
    ensures forall i | FirstUnder(ps, key, i) :: v == Some(ps[i].1)
  {
    if ps == [] then None
    else if ps[0].0 == key then Some(ps[0].1)
    else
      assert forall i | FirstUnder(ps, key, i) :: FirstUnder(ps[1..], key, i - 1);
      Get(ps[1..], key)
  }

  /** Distinct filter keys have distinct names, none of them `q`. */
  lemma KeyNamesDistinct(a: FilterKey, b: FilterKey)
    ensures a != b ==> KeyName(a) != KeyName(b)
    ensures KeyName(a) != "q"
  {
    assert |KeyName(a)| > 1;
    if a != b && |KeyName(a)| == |KeyName(b)| {
      assert KeyName(a)[0] != KeyName(b)[0];
    }
  }

  /** Whether filter `k` has a value in `f`. */
  function GivenIn(f: Filters): FilterKey -> bool {
    k => Given(Field(f, k))
  }

  /** The URL pair of filter `k`: its name and its value. */
  function ParamOf(f: Filters): FilterKey -> (string, string) {
    k => (KeyName(k), Field(f, k).GetOr(""))
  }

  /** The parameters a list of filter keys contributes: one pair per key
      whose value is given, in key order. */
  function FilterParams(f: Filters, ks: seq<FilterKey>): (r: Params)
    ensures |r| <= |ks|
    ensures forall i | 0 <= i < |r| :: r[i].1 != ""
  {
    if ks == [] then []
    else
      var head := if Given(Field(f, ks[0])) then [(KeyName(ks[0]), Field(f, ks[0]).value)] else [];
      head + FilterParams(f, ks[1..])
  }

  /** The pairs are those of the given keys, one each, in key order. */
  lemma {:induction false} FilterParamsOfGivenKeys(f: Filters, ks: seq<FilterKey>)
    ensures FilterParams(f, ks) == Map(Filter(ks, GivenIn(f)), ParamOf(f))
    ensures |FilterParams(f, ks)| == Count(ks, GivenIn(f))
  {
    if ks != [] {
      var k := ks[0];
      var kept := if GivenIn(f)(k) then [k] else [];
      FilterParamsOfGivenKeys(f, ks[1..]);
      assert Filter(ks, GivenIn(f)) == kept + Filter(ks[1..], GivenIn(f));
      MapConcat(kept, Filter(ks[1..], GivenIn(f)), ParamOf(f));
    }
  }

  /** `buildSearchUrl`: `q` first, then one pair per given filter, in the
      order category, difficulty, status, dateFrom, dateTo, type. */
  function BuildSearchParams(q: string, f: Filters): (ps: Params)
    ensures |ps| >= 1 && ps[0] == ("q", q)
    ensures ps[1..] == FilterParams(f, FilterKeys)
    ensures forall i | 1 <= i < |ps| :: ps[i].1 != ""
  {
    [("q", q)] + FilterParams(f, FilterKeys)
  }

  /** After `q`, the URL lists the given filters' pairs and nothing else,
      in key order. */
  lemma BuildSearchParamsOrder(q: string, f: Filters)
    ensures BuildSearchParams(q, f)[1..] == Map(Filter(FilterKeys, GivenIn(f)), ParamOf(f))
    ensures |BuildSearchParams(q, f)| == 1 + Count(FilterKeys, GivenIn(f))
  {
    FilterParamsOfGivenKeys(f, FilterKeys);
  }

  /** The filter keys contribute exactly the given values, each under
      its own name. */
  lemma {:induction false} GetFilterParams(f: Filters, ks: seq<FilterKey>, k: FilterKey)
    ensures Get(FilterParams(f, ks), KeyName(k)) ==
      if k in ks && Given(Field(f, k)) then Field(f, k) else None
    ensures Get(FilterParams(f, ks), "q") == None
  {
    if ks != [] {
      GetFilterParams(f, ks[1..], k);
      KeyNamesDistinct(ks[0], k);
      assert k in ks <==> k == ks[0] || k in ks[1..] by {
        assert ks == [ks[0]] + ks[1..];
      }
      var rest := FilterParams(f, ks[1..]);
      var ps := FilterParams(f, ks);
      if Given(Field(f, ks[0])) {
        assert ps == [(KeyName(ks[0]), Field(f, ks[0]).value)] + rest;
        assert ps[1..] == rest;
      } else {
        assert ps == rest;
      }
    }
  }

  /** The parsed value of one filter: present only when non-empty. */
  function ParseField(ps: Params, k: FilterKey): (v: Option<string>)
    ensures v.Some? ==> Given(v) && (KeyName(k), v.value) in ps
    ensures Get(ps, KeyName(k)).None? ==> v.None?
    ensures forall i | FirstUnder(ps, KeyName(k), i) :: v == if ps[i].1 != "" then Some(ps[i].1) else None
  {
    var g := Get(ps, KeyName(k));
    if Given(g) then g else None
  }

  /** `parseSearchUrl`: the query (empty when `q` is absent) and the six
      known filters that carry a non-empty value; other keys are ignored. */
  function ParseSearchParams(ps: Params): (r: (string, Filters))
    ensures Get(ps, "q").None? ==> r.0 == ""
    ensures Get(ps, "q").Some? ==> r.0 == Get(ps, "q").value
    ensures forall k :: Field(r.1, k).Some? ==> Given(Field(r.1, k)) && (KeyName(k), Field(r.1, k).value) in ps
    ensures forall i | FirstUnder(ps, "q", i) :: r.0 == ps[i].1
    ensures forall k, i | FirstUnder(ps, KeyName(k), i) ::
      Field(r.1, k) == if ps[i].1 != "" then Some(ps[i].1) else None
  {
    var q := Get(ps, "q");
    (if q.Some? then q.value else "", ParseFilters(ps))
  }

  /** The six known filters read from the parameters. */
  function ParseFilters(ps: Params): (f: Filters)
    ensures forall k :: Field(f, k) == ParseField(ps, k)
  {
    Filters(ParseField(ps, Category), ParseField(ps, Difficulty), ParseField(ps, Status),
            ParseField(ps, DateFrom), ParseField(ps, DateTo), ParseField(ps, Type))
  }

  /** Each parsed filter is that key's first value, when non-empty. */
  lemma ParsedField(ps: Params, k: FilterKey)
    ensures Field(ParseSearchParams(ps).1, k) == ParseField(ps, k)
  {
  }

  /** Parsing a built query string gives back the query and exactly the
      filters that were given; empty-string filters come back undefined. */
  lemma SearchParamsRoundTrip(q: string, f: Filters)
    ensures ParseSearchParams(BuildSearchParams(q, f)) == (q, Normalize(f))
  {
    var r := ParseSearchParams(BuildSearchParams(q, f));
    var g := Normalize(f);
    RoundTripField(q, f, Category);
    RoundTripField(q, f, Difficulty);
    RoundTripField(q, f, Status);
    RoundTripField(q, f, DateFrom);
    RoundTripField(q, f, DateTo);
    RoundTripField(q, f, Type);
    assert r.1.category == g.category && r.1.difficulty == g.difficulty;
    assert r.1.status == g.status && r.1.dateFrom == g.dateFrom;
    assert r.1.dateTo == g.dateTo && r.1.kind == g.kind;
  }

  lemma RoundTripField(q: string, f: Filters, k: FilterKey)
    ensures Field(ParseSearchParams(BuildSearchParams(q, f)).1, k) == Field(Normalize(f), k)
  {
    var ps := BuildSearchParams(q, f);
    assert ps[1..] == FilterParams(f, FilterKeys);
    KeyNamesDistinct(k, k);
    assert Get(ps, KeyName(k)) == Get(FilterParams(f, FilterKeys), KeyName(k));
    GetFilterParams(f, FilterKeys, k);
    assert k in FilterKeys;
    ParsedField(ps, k);
  }

  /** A pair under a key that is neither `q` nor a filter key does not
      change the parse, wherever it is added. */
  lemma ParseIgnoresUnknownKeys(a: Params, b: Params, key: string, value: string)
    requires key != "q" && forall k :: key != KeyName(k)
    ensures ParseSearchParams(a + [(key, value)] + b) == ParseSearchParams(a + b)
  {
    forall other: string | other != key
      ensures Get(a + [(key, value)] + b, other) == Get(a + b, other)
    {
      GetSkip(a, b, key, value, other);
    }
    var r1, r2 := ParseSearchParams(a + [(key, value)] + b), ParseSearchParams(a + b);
    assert Get(a + [(key, value)] + b, "q") == Get(a + b, "q");
    forall k: FilterKey ensures Field(r1.1, k) == Field(r2.1, k) {
      assert Get(a + [(key, value)] + b, KeyName(k)) == Get(a + b, KeyName(k));
      ParsedField(a + [(key, value)] + b, k);
      ParsedField(a + b, k);
    }
    assert r1.1 == r2.1 by {
      assert Field(r1.1, Category) == Field(r2.1, Category);
      assert Field(r1.1, Difficulty) == Field(r2.1, Difficulty);
      assert Field(r1.1, Status) == Field(r2.1, Status);
      assert Field(r1.1, DateFrom) == Field(r2.1, DateFrom);
      assert Field(r1.1, DateTo) == Field(r2.1, DateTo);
      assert Field(r1.1, Type) == Field(r2.1, Type);
    }
  }

  lemma {:induction false} GetSkip(a: Params, b: Params, key: string, value: string, other: string)
    requires other != key
    ensures Get(a + [(key, value)] + b, other) == Get(a + b, other)
    decreases |a|
  {
    if a == [] {
      var ps := a + [(key, value)] + b;
      assert ps == [(key, value)] + b;
      assert ps[0].0 == key && ps[1..] == b;
      assert a + b == b;
    } else {
      GetSkip(a[1..], b, key, value, other);
      assert (a + [(key, value)] + b)[1..] == a[1..] + [(key, value)] + b;
      assert (a + b)[1..] == a[1..] + b;
    }
  }

  // ----- saved searches -----

  datatype SavedSearch = SavedSearch(query: string, filters: Filters, name: string)

  const MaxSaved: nat := 20

  /** `removeSavedSearch`: drops exactly the entries with that name. */
  function RemoveSavedSearch(saved: seq<SavedSearch>, name: string): (r: seq<SavedSearch>)
    ensures forall s :: s in r <==> s in saved && s.name != name
    ensures |r| == |saved| - Count(saved, (s: SavedSearch) => s.name == name)
    ensures forall i | 0 <= i < |r| :: r[i].name != name
  {
    var r := Reject(saved, (s: SavedSearch) => s.name == name);
    assert forall i | 0 <= i < |r| :: r[i] in r;
    r
  }

  /** Removal keeps the other entries in order. */
  lemma RemoveSavedSearchKeepsOrder(a: seq<SavedSearch>, b: seq<SavedSearch>, name: string)
    ensures RemoveSavedSearch(a + b, name) == RemoveSavedSearch(a, name) + RemoveSavedSearch(b, name)
  {
    RejectConcat(a, b, (s: SavedSearch) => s.name == name);
  }

  /** `saveSearch`: any entry with the same name is replaced by the new
      one, which goes in front; at most 20 entries are kept. */
  function SaveSearch(saved: seq<SavedSearch>, query: string, filters: Filters, name: string)
    : (r: seq<SavedSearch>)
    ensures 1 <= |r| <= MaxSaved
    ensures |r| == if |RemoveSavedSearch(saved, name)| + 1 <= MaxSaved
                   then |RemoveSavedSearch(saved, name)| + 1 else MaxSaved
    ensures r[0] == SavedSearch(query, filters, name)
    ensures forall i | 0 <= i < |r| :: r[i].name == name <==> i == 0
    ensures forall i | 1 <= i < |r| :: r[i] == RemoveSavedSearch(saved, name)[i - 1]
  {
    var rest := RemoveSavedSearch(saved, name);
    var all := [SavedSearch(query, filters, name)] + rest;
    assert forall i | 1 <= i < |all| :: all[i] == rest[i - 1];
    Take(all, MaxSaved)
  }
}
