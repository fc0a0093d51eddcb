/** The results page: the achievements and experience points a score
    earns, the message and colour it is shown with, the review pager and
    the certificate button. The score arrives as an integer parsed from
    the page address. */
module QuizResults {
  import opened Seqs

  datatype Achievement = Achievement(id: string, name: string, xp: nat)

  const QuizMaster := Achievement("1", "Quiz Master", 50)
  const ZkExplorer := Achievement("2", "ZK Explorer", 25)

  /** Both achievements from 80 up, none below. */
  function AchievementsUnlocked(score: int): (r: seq<Achievement>)
    ensures score >= 80 ==> r == [QuizMaster, ZkExplorer]
    ensures score < 80 ==> r == []
  {
    if score >= 80 then [QuizMaster, ZkExplorer] else []
  }

  function AchievementXp(a: Achievement): int {
    a.xp
  }

  /** Twice the score plus the experience of the achievements unlocked. */
  function XpEarned(score: int): (xp: int)
    ensures xp == 2 * score + (if score >= 80 then 75 else 0)
  {
    var bonus := Sum(AchievementsUnlocked(score), AchievementXp);
    assert score >= 80 ==> bonus == 75 by {
      if score >= 80 {
        assert [QuizMaster, ZkExplorer][1..] == [ZkExplorer];
        assert [ZkExplorer][1..] == [];
        assert Sum([ZkExplorer], AchievementXp) == 25;
      }
    }
    2 * score + bonus
  }

  /** More score never earns less experience, and crossing 80 adds the
      75-point bonus. */
  lemma XpMonotone(a: int, b: int)
    requires a <= b
    ensures XpEarned(a) <= XpEarned(b)
    ensures a < 80 <= b ==> XpEarned(b) - XpEarned(a) >= 75
  {
  }

  /** The message bands, highest first. */
  datatype Band = Outstanding | Great | Good | NotBad | KeepPracticing

  function BandOf(score: int): (b: Band)
    ensures b == Outstanding <==> score >= 90
    ensures b == Great <==> 80 <= score < 90
    ensures b == Good <==> 70 <= score < 80
    ensures b == NotBad <==> 60 <= score < 70
    ensures b == KeepPracticing <==> score < 60
  {
    if score >= 90 then Outstanding
    else if score >= 80 then Great
    else if score >= 70 then Good
    else if score >= 60 then NotBad
    else KeepPracticing
  }

  function Rank(b: Band): nat {
    match b
    case Outstanding => 4
    case Great => 3
    case Good => 2
    case NotBad => 1
    case KeepPracticing => 0
  }

  /** A higher score never falls into a lower band. */
  lemma BandMonotone(a: int, b: int)
    requires a <= b
    ensures Rank(BandOf(a)) <= Rank(BandOf(b))
  {
  }

  /** `getScoreMessage`: the text of the first band the score reaches. */
  function ScoreMessage(score: int): (m: string)
    ensures score >= 90 ==> m == "Outstanding! \U{1F389}"
    ensures 80 <= score < 90 ==> m == "Great job! \U{1F44F}"
    ensures 70 <= score < 80 ==> m == "Good work! \U{1F44D}"
    ensures 60 <= score < 70 ==> m == "Not bad, keep learning! \U{1F4DA}"
    ensures score < 60 ==> m == "Keep practicing! \U{1F4AA}"
  {
    match BandOf(score)
    case Outstanding => "Outstanding! \U{1F389}"
    case Great => "Great job! \U{1F44F}"
    case Good => "Good work! \U{1F44D}"
    case NotBad => "Not bad, keep learning! \U{1F4DA}"
    case KeepPracticing => "Keep practicing! \U{1F4AA}"
  }

  datatype Colour = Green | Yellow | Red

  /** `getScoreColor` on the results page: green from 90, yellow from 70. */
  function ScoreColor(score: int): (c: Colour)
    ensures c == Green <==> score >= 90
    ensures c == Yellow <==> 70 <= score < 90
    ensures c == Red <==> score < 70
  {
    if score >= 90 then Green else if score >= 70 then Yellow else Red
  }

  /** The certificate can be downloaded from 70 up: exactly when the
      score is not shown in red, and exactly for the scores whose message
      is "good" or better. */
  function ShowCertificate(score: int): (b: bool)
    ensures b <==> ScoreColor(score) != Red
    ensures b <==> Rank(BandOf(score)) >= Rank(Good)
  {
    score >= 70
  }

  /** The review pager's "previous": one back, never below 0. */
  function ReviewPrevious(i: int): (r: int)
    ensures r >= 0
    ensures i >= 1 ==> r == i - 1
    ensures i <= 1 ==> r == 0
  {
    if i - 1 > 0 then i - 1 else 0
  }

  /** The review pager's "next": one forward, never past the last of
      `n` questions. */
  function ReviewNext(i: int, n: nat): (r: int)
    ensures r <= n - 1
    ensures i + 1 <= n - 1 ==> r == i + 1
    ensures i + 1 >= n - 1 ==> r == n - 1
  {
    if n - 1 < i + 1 then n - 1 else i + 1
  }

  /** With at least one question, the pager keeps a valid index valid,
      and a step forward is undone by a step back. */
  lemma ReviewPagerInRange(i: int, n: nat)
    requires 0 <= i < n
    ensures 0 <= ReviewPrevious(i) < n
    ensures 0 <= ReviewNext(i, n) < n
    ensures i < n - 1 ==> ReviewPrevious(ReviewNext(i, n)) == i
  {
  }
}
