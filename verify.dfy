/** The grading step of the skill-verification endpoint
    (app/api/skills/verify/route.ts): a coding answer worth 50 points that is
    first screened for plagiarism, multiple-choice answers worth 10 points each
    of which 7 are credited, and a pass mark of 70 %. */
module SkillVerification {
  import opened Util
  import opened Sorting
  import opened Plagiarism

  /** The characters `\w` matches. */
  predicate IsWordChar(c: char) {
    'a' <= c <= 'z' || 'A' <= c <= 'Z' || '0' <= c <= '9' || c == '_'
  }

  /** `def\s+\w+` matches at offset `k`: "def", at least one white-space
      character, then a word character. */
  predicate DefAt(code: string, k: nat) {
    && OccursAt(code, "def", k)
    && exists m :: k + 3 < m < |code| && IsWordChar(code[m]) && forall p :: k + 3 <= p < m ==> IsSpace(code[p])
  }

  /** The regular expression `/function|=>|def\s+\w+/` finds a match somewhere in the code. */
  predicate HasFunction(code: string) {
    Contains(code, "function") || Contains(code, "=>") || exists k: nat | k < |code| :: DefAt(code, k)
  }

  /** Full coding credit: a function marker and more than 20 characters. */
  predicate FullCredit(code: string) {
    HasFunction(code) && |code| > 20
  }

  const CodingPoints: nat := 50
  const PartialCodingPoints: nat := 25
  const McqPoints: nat := 10
  const McqCredit: nat := 7
  const PassRatio: real := 0.7

  /** Points earned and points available. */
  datatype Grade = Grade(total: nat, max: nat)

  /** The grade of a submission that was not rejected: a coding answer (the
      empty string standing for none) and `mcqCount` multiple-choice answers. */
  function GradeOf(codingAnswer: string, mcqCount: nat): (g: Grade)
    ensures g.total <= g.max
    ensures g.max == 0 <==> codingAnswer == "" && mcqCount == 0
    ensures g.max - g.total == (if codingAnswer == "" || FullCredit(codingAnswer) then 0 else PartialCodingPoints) + 3 * mcqCount
  {
    var coding := if codingAnswer == "" then Grade(0, 0)
      else Grade(if FullCredit(codingAnswer) then CodingPoints else PartialCodingPoints, CodingPoints);
    Grade(coding.total + McqCredit * mcqCount, coding.max + McqPoints * mcqCount)
  }

  /** At least 70 % of the available points, and some points available. */
  predicate Passed(g: Grade) {
    g.max > 0 && (g.total as real) / (g.max as real) >= PassRatio
  }

  /** The ratio test on whole numbers. */
  lemma PassedIntegral(g: Grade)
    ensures Passed(g) <==> g.max > 0 && 10 * g.total >= 7 * g.max
  {
    if g.max > 0 {
      var q := (g.total as real) / (g.max as real);
      assert q * (g.max as real) == g.total as real;
      if q >= PassRatio {
        assert (g.total as real) >= PassRatio * (g.max as real);
      } else {
        assert (g.total as real) < PassRatio * (g.max as real);
      }
    }
  }

  /** Who passes: with no coding answer, anyone who answered a
      multiple-choice question; with one, exactly those who earned full coding
      credit. Partial coding credit always fails. */
  lemma PassedExactly(codingAnswer: string, mcqCount: nat)
    ensures Passed(GradeOf(codingAnswer, mcqCount)) <==>
      if codingAnswer == "" then mcqCount > 0 else FullCredit(codingAnswer)
  {
    PassedIntegral(GradeOf(codingAnswer, mcqCount));
  }

  /** The score `checkPlagiarism` reports: the best reported similarity, or 0. */
  function PlagiarismScore(code: string, language: string, corpus: map<string, seq<string>>): (r: real)
    ensures 0.0 <= r <= 1.0
    ensures r == 0.0 || ReportThreshold < r
  {
    var matches := SortDesc(Reported(code, Solutions(corpus, language)), MatchSimilarity);
    if matches == [] then 0.0
    else
      SortDescCorrect(Reported(code, Solutions(corpus, language)), MatchSimilarity);
      assert matches[0] in multiset(Reported(code, Solutions(corpus, language)));
      matches[0].similarity
  }

  /** The request's `language`, "javascript" when absent. */
  function Language(language: Option<string>): (r: string)
    ensures language.None? ==> r == "javascript"
  {
    if language.Some? then language.value else "javascript"
  }

  datatype Outcome =
    | PlagiarismDetected(plagiarismScore: real, matches: seq<Match>)
    | Graded(grade: Grade, passed: bool, plagiarismScore: real)

  /** Steps 1 to 3 of the endpoint: a non-empty coding answer counts 50
      points and is checked for plagiarism first (the submission is refused
      when the score reaches the plagiarism threshold), otherwise it earns 50
      points with a function marker and over 20 characters and 25 without;
      each multiple-choice answer counts 10 points of which 7 are credited;
      the submission passes at 70 % of a non-zero maximum. The endpoint
      compares against the built-in `KnownSolutions`; `corpus` stands for it. */
  method VerifySkill(codingAnswer: string, mcqCount: nat, language: Option<string>,
                     corpus: map<string, seq<string>>)
    returns (outcome: Outcome)
    ensures outcome.PlagiarismDetected? <==>
      codingAnswer != "" && IsPlagiarized(PlagiarismScore(codingAnswer, Language(language), corpus))
    ensures outcome.PlagiarismDetected? ==>
      && outcome.plagiarismScore == PlagiarismScore(codingAnswer, Language(language), corpus)
      && outcome.matches == SortDesc(Reported(codingAnswer, Solutions(corpus, Language(language))), MatchSimilarity)
    ensures outcome.Graded? ==>
      && outcome.grade == GradeOf(codingAnswer, mcqCount)
      && (outcome.passed <==> Passed(outcome.grade))
      && outcome.plagiarismScore == (if codingAnswer == "" then 0.0 else PlagiarismScore(codingAnswer, Language(language), corpus))
      && outcome.plagiarismScore < PlagiarismThreshold
  {
    var totalScore: nat := 0;
    var maxScore: nat := 0;
    var plagiarismScore: real := 0.0;
    if codingAnswer != "" {
      maxScore := maxScore + CodingPoints;
      var score, matches := CheckPlagiarism(codingAnswer, Language(language), corpus);
      plagiarismScore := score;
      if IsPlagiarized(plagiarismScore) {
        return PlagiarismDetected(plagiarismScore, matches);
      }
      if FullCredit(codingAnswer) {
        totalScore := totalScore + CodingPoints;
      } else {
        totalScore := totalScore + PartialCodingPoints;
      }
    }
    maxScore := maxScore + mcqCount * McqPoints;
    totalScore := totalScore + mcqCount * McqCredit;
    var passed := maxScore > 0 && (totalScore as real) / (maxScore as real) >= PassRatio;
    outcome := Graded(Grade(totalScore, maxScore), passed, plagiarismScore);
  }
}
