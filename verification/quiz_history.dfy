/** The quiz history page: past attempts filtered by a title search and
    a category, sorted by the chosen column, and summarised. Completion
    dates are integer timestamps. */
module QuizHistory {
  import opened Options
  import opened Seqs
  import opened Numbers
  import opened Text
  import opened Ordering
  import opened Formatters

  datatype Attempt = Attempt(
    id: string,
    title: string,
    category: string,
    completedAt: int,
    score: nat,
    duration: nat,
    xpEarned: nat,
    rank: string)

  /** Kept when the title contains the search term, ignoring case, and
      the category filter is "all" or the attempt's category. */
  predicate Matches(searchTerm: string, categoryFilter: string, a: Attempt) {
    IncludesIgnoreCase(a.title, searchTerm) && (categoryFilter == "all" || a.category == categoryFilter)
  }

  function Keep(searchTerm: string, categoryFilter: string): Attempt -> bool {
    a => Matches(searchTerm, categoryFilter, a)
  }

  function Title(a: Attempt): string { a.title }
  function ScoreOf(a: Attempt): int { a.score }
  function CompletedAt(a: Attempt): int { a.completedAt }

  /** The comparator for the sort column: "score" highest first, "title"
      alphabetical, anything else most recent first. */
  function Order(sortBy: string): (T: (Attempt, Attempt) -> bool) {
    if sortBy == "score" then Descending(ScoreOf)
    else if sortBy == "title" then AscendingText(Title)
    else Descending(CompletedAt)
  }

  lemma OrderPreorder(sortBy: string)
    ensures Total(Order(sortBy)) && Transitive(Order(sortBy))
  {
    DescendingPreorder(ScoreOf);
    DescendingPreorder(CompletedAt);
    AscendingTextPreorder(Title);
  }

  /** The rows shown: exactly the matching attempts, each as often as in
      the history, in the order of the sort column. */
  function FilteredHistory(items: seq<Attempt>, searchTerm: string, categoryFilter: string, sortBy: string): (r: seq<Attempt>)
    ensures multiset(r) == multiset(Filter(items, Keep(searchTerm, categoryFilter)))
    ensures forall a :: a in r <==> a in items && Matches(searchTerm, categoryFilter, a)
    ensures SortedBy(r, Order(sortBy))
  {
    var kept := Filter(items, Keep(searchTerm, categoryFilter));
    OrderPreorder(sortBy);
    SortBySorted(kept, Order(sortBy));
    var r := SortBy(kept, Order(sortBy));
    SameMembers(r, kept);
    r
  }

  /** With no search term and every category, every attempt is shown. */
  lemma NoFilterShowsAll(items: seq<Attempt>, sortBy: string)
    ensures multiset(FilteredHistory(items, "", "all", sortBy)) == multiset(items)
  {
    forall i | 0 <= i < |items| ensures Keep("", "all")(items[i]) {
      IncludesEmpty(ToLower(items[i].title));
    }
    FilterKeepsAll(items, Keep("", "all"));
  }

  // ----- summary -----

  function BestScore(items: seq<Attempt>): (m: nat)
    requires items != []
    ensures exists i | 0 <= i < |items| :: items[i].score == m
    ensures forall i | 0 <= i < |items| :: items[i].score <= m
  {
    if |items| == 1 then items[0].score
    else
      var rest := BestScore(items[1..]);
      assert forall i | 1 <= i < |items| :: items[i] == items[1..][i - 1];
      if items[0].score >= rest then items[0].score else rest
  }

  function WorstScore(items: seq<Attempt>): (m: nat)
    requires items != []
    ensures exists i | 0 <= i < |items| :: items[i].score == m
    ensures forall i | 0 <= i < |items| :: m <= items[i].score
  {
    if |items| == 1 then items[0].score
    else
      var rest := WorstScore(items[1..]);
      assert forall i | 1 <= i < |items| :: items[i] == items[1..][i - 1];
      if items[0].score <= rest then items[0].score else rest
  }

  function Xp(a: Attempt): int { a.xpEarned }

  datatype Stats = Stats(totalQuizzes: nat, averageScore: Option<nat>, totalXp: int, bestScore: Option<nat>)

  /** The summary cards over the whole history: the count, the rounded
      mean score, the experience total and the best score. An empty
      history has no mean and no best (the page would show `NaN` and
      `-Infinity`). */
  function HistoryStats(items: seq<Attempt>): (st: Stats)
    ensures st.totalQuizzes == |items|
    ensures st.averageScore.None? <==> items == []
    ensures st.bestScore.None? <==> items == []
    ensures items != [] ==> st.bestScore == Some(BestScore(items))
    ensures items != [] ==> WorstScore(items) <= st.averageScore.value <= BestScore(items)
    ensures items != [] ==> 2 * |items| * st.averageScore.value <= 2 * Sum(items, ScoreOf) + |items|
                                                                < 2 * |items| * (st.averageScore.value + 1)
    ensures st.totalXp == Sum(items, Xp)
    ensures st.totalXp >= 0
  {
    SumBounds(items, Xp, 0, if items == [] then 0 else MaxXp(items));
    if items == [] then Stats(0, None, 0, None)
    else Stats(|items|, Some(MeanScore(items)), Sum(items, Xp), Some(BestScore(items)))
  }

  /** The rounded mean score of a non-empty history. */
  function MeanScore(items: seq<Attempt>): (m: nat)
    requires items != []
    ensures WorstScore(items) <= m <= BestScore(items)
    ensures 2 * |items| * m <= 2 * Sum(items, ScoreOf) + |items| < 2 * |items| * (m + 1)
  {
    var lo, hi, n := WorstScore(items), BestScore(items), |items|;
    assert Sum(items, ScoreOf) >= 0 by { SumBounds(items, ScoreOf, 0, hi); }
    var total: nat := Sum(items, ScoreOf);
    assert lo <= RoundDiv(total, n) by {
      SumBounds(items, ScoreOf, lo, hi);
      RoundDivLower(total, n, lo);
    }
    assert RoundDiv(total, n) <= hi by {
      SumBounds(items, ScoreOf, lo, hi);
      RoundDivBound(total, n, hi);
    }
    RoundDiv(total, n)
  }

  function MaxXp(items: seq<Attempt>): (m: nat)
    ensures forall i | 0 <= i < |items| :: items[i].xpEarned <= m
  {
    if items == [] then 0
    else
      var rest := MaxXp(items[1..]);
      assert forall i | 1 <= i < |items| :: items[i] == items[1..][i - 1];
      if items[0].xpEarned >= rest then items[0].xpEarned else rest
  }

  /** When every attempt has the same score, that is the mean and the best. */
  lemma UniformScores(items: seq<Attempt>, s: nat)
    requires items != [] && forall i | 0 <= i < |items| :: items[i].score == s
    ensures HistoryStats(items).averageScore == Some(s)
    ensures HistoryStats(items).bestScore == Some(s)
  {
  }

  /** `formatDuration`: "m:ss". */
  function FormatDuration(seconds: nat): (r: string)
    ensures |r| >= 4 && r[|r| - 3] == ':'
    ensures r[..|r| - 3] == NatToString(seconds / 60)
    ensures AllDigits(r[|r| - 2..]) && DigitsValue(r[|r| - 2..]) == seconds % 60
  {
    MinutesSeconds(seconds)
  }

  datatype Colour = Green | Blue | Yellow | Red

  /** `getScoreColor` on the history page: green from 90, blue from 80,
      yellow from 70, else red. */
  function ScoreColor(score: int): (c: Colour)
    ensures c == Green <==> score >= 90
    ensures c == Blue <==> 80 <= score < 90
    ensures c == Yellow <==> 70 <= score < 80
    ensures c == Red <==> score < 70
  {
    if score >= 90 then Green else if score >= 80 then Blue else if score >= 70 then Yellow else Red
  }

  /** `getRankColor`: the first of the letters A, B, C the rank contains
      picks the colour. */
  function RankColor(rank: string): (c: Colour)
    ensures c == Green <==> 'A' in rank
    ensures c == Blue <==> 'A' !in rank && 'B' in rank
    ensures c == Yellow <==> 'A' !in rank && 'B' !in rank && 'C' in rank
    ensures c == Red <==> 'A' !in rank && 'B' !in rank && 'C' !in rank
  {
    OneCharIncludes(rank, 'A');
    OneCharIncludes(rank, 'B');
    OneCharIncludes(rank, 'C');
    if Includes(rank, "A") then Green
    else if Includes(rank, "B") then Blue
    else if Includes(rank, "C") then Yellow
    else Red
  }

  /** A one-character substring occurs exactly when the character does. */
  lemma OneCharIncludes(s: string, c: char)
    ensures Includes(s, [c]) <==> c in s
  {
    if c in s {
      var i :| 0 <= i < |s| && s[i] == c;
      assert s[i..i + 1] == [c];
      assert OccursAt(s, [c], i);
    }
    if Includes(s, [c]) {
      var i :| 0 <= i <= |s| && OccursAt(s, [c], i);
      assert s[i..i + 1] == [c];
      assert s[i] == c;
    }
  }
}
