/** The teacher matcher of lib/matching-algorithm.ts: five sub-scores with
    fixed defaults, their weighted total, a stable ranking cut to a limit, a
    quality label, and the fixed list of availability slots. */
module Matching {
  import opened Util
  import opened Sorting

  datatype Skill = Skill(name: string, verified: bool)

  datatype TeacherProfile = TeacherProfile(learningStyle: string, preferredPace: string, availability: string)

  datatype StudentProfile = StudentProfile(
    learningStyle: string, preferredPace: string, availability: string, preferredLanguages: string)

  /** A candidate teacher; `ratings` holds the rating of each past session, `None` where it is null. */
  datatype Teacher = Teacher(
    id: string, name: string, skills: seq<Skill>, ratings: seq<Option<real>>,
    profile: Option<TeacherProfile>, points: int)

  datatype Student = Student(id: string, profile: Option<StudentProfile>)

  datatype Breakdown = Breakdown(
    skillMatch: real, ratingScore: real, availabilityMatch: real, learningStyleMatch: real, paceMatch: real)

  datatype MatchScore = MatchScore(teacherId: string, score: real, breakdown: Breakdown)

  /** What `JSON.parse` makes of an availability string: a JSON array of
      slot tags, some other JSON value (one without `filter` or `includes`:
      a number, a boolean, `null` or an object), or an exception. */
  datatype Parsed = Slots(slots: seq<string>) | NotAList | Malformed

  /** `JSON.parse` of an availability string. */
  type Parser = string -> Parsed

  // ---------------------------------------------------------------------------
  // The sub-scores
  // ---------------------------------------------------------------------------

  /** Some skill has the requested name, compared lower-cased, and is verified (`skills.some(...)`). */
  predicate HasVerifiedSkill(skills: seq<Skill>, skillName: string) {
    skills != [] &&
    ((Lower(skills[0].name) == Lower(skillName) && skills[0].verified) || HasVerifiedSkill(skills[1..], skillName))
  }

  /** `skills.some` finds a skill exactly when one exists. */
  lemma {:induction false} HasVerifiedSkillExists(skills: seq<Skill>, skillName: string)
    ensures HasVerifiedSkill(skills, skillName)
        <==> exists k :: 0 <= k < |skills| && Lower(skills[k].name) == Lower(skillName) && skills[k].verified
  {
    if skills != [] {
      HasVerifiedSkillExists(skills[1..], skillName);
      if !(Lower(skills[0].name) == Lower(skillName) && skills[0].verified) {
        if k :| 0 <= k < |skills| && Lower(skills[k].name) == Lower(skillName) && skills[k].verified {
          assert k > 0 && skills[1..][k - 1] == skills[k];
        }
      }
    }
  }

  function SkillMatch(skills: seq<Skill>, skillName: string): real {
    if HasVerifiedSkill(skills, skillName) then 1.0 else 0.0
  }

  /** The skill sub-score is 1 exactly when a verified skill has the requested
      name up to case, and 0 otherwise. */
  lemma SkillMatchExactly(skills: seq<Skill>, skillName: string)
    ensures SkillMatch(skills, skillName) == 1.0
        <==> exists k :: 0 <= k < |skills| && Lower(skills[k].name) == Lower(skillName) && skills[k].verified
    ensures SkillMatch(skills, skillName) == 0.0 || SkillMatch(skills, skillName) == 1.0
  {
    HasVerifiedSkillExists(skills, skillName);
  }

  /** The non-null ratings, in order (`map(...).filter(r => r !== null)`). */
  function Present(ratings: seq<Option<real>>): (r: seq<real>)
    ensures |r| <= |ratings|
  {
    if ratings == [] then []
    else (if ratings[0].Some? then [ratings[0].value] else []) + Present(ratings[1..])
  }

  /** The ratings that are present are the values of the `Some` entries. */
  lemma {:induction false} PresentValues(ratings: seq<Option<real>>, lo: real, hi: real)
    requires forall k :: 0 <= k < |ratings| && ratings[k].Some? ==> lo <= ratings[k].value <= hi
    ensures forall k :: 0 <= k < |Present(ratings)| ==> lo <= Present(ratings)[k] <= hi
  {
    if ratings != [] {
      PresentValues(ratings[1..], lo, hi);
      var head := if ratings[0].Some? then [ratings[0].value] else [];
      assert Present(ratings) == head + Present(ratings[1..]);
    }
  }

  /** `reduce((a, b) => a + b, 0)`. */
  function Sum(xs: seq<real>): real {
    if xs == [] then 0.0 else xs[0] + Sum(xs[1..])
  }

  lemma {:induction false} SumBounds(xs: seq<real>, lo: real, hi: real)
    requires forall k :: 0 <= k < |xs| ==> lo <= xs[k] <= hi
    ensures lo * (|xs| as real) <= Sum(xs) <= hi * (|xs| as real)
  {
    if xs != [] {
      SumBounds(xs[1..], lo, hi);
    }
  }

  /** A total between 0 and `hi` times a positive count has a mean between 0 and `hi`. */
  lemma MeanBounds(total: real, n: real, hi: real)
    requires 0.0 < n && 0.0 <= total <= hi * n
    ensures 0.0 <= total / n <= hi
  {
    var mean := total / n;
    assert mean * n == total;
    if mean > hi {
      assert mean * n > hi * n;
    }
  }

  /** The mean of the present ratings over 5, or 0.5 for a teacher with none. */
  function RatingScore(ratings: seq<Option<real>>): real {
    var present := Present(ratings);
    if |present| > 0 then (Sum(present) / (|present| as real)) / 5.0 else 0.5
  }

  /** The rating sub-score is exactly 0.5 without ratings and lies in [0, 1]
      when every rating lies in [0, 5]. */
  lemma {:induction false} RatingScoreBounds(ratings: seq<Option<real>>)
    requires forall k :: 0 <= k < |ratings| && ratings[k].Some? ==> 0.0 <= ratings[k].value <= 5.0
    ensures Present(ratings) == [] ==> RatingScore(ratings) == 0.5
    ensures 0.0 <= RatingScore(ratings) <= 1.0
  {
    var present := Present(ratings);
    PresentValues(ratings, 0.0, 5.0);
    SumBounds(present, 0.0, 5.0);
    if |present| > 0 {
      MeanBounds(Sum(present), |present| as real, 5.0);
    }
  }

  /** Two ratings of 5 and 4 with a null between them give 0.9. */
  lemma RatingScoreExample()
    ensures RatingScore([Some(5.0), None, Some(4.0)]) == 0.9
  {
    var r: seq<Option<real>> := [Some(5.0), None, Some(4.0)];
    assert r[1..] == [None, Some(4.0)] && r[1..][1..] == [Some(4.0)] && |r[1..][1..][1..]| == 0;
    assert Present(r) == [5.0, 4.0];
    assert [5.0, 4.0][1..] == [4.0];
  }

  /** The teacher's slots, duplicates kept, that the student also lists
      (`teacherAvail.filter(slot => studentAvail.includes(slot))`). */
  function Overlap(teacherSlots: seq<string>, studentSlots: seq<string>): (r: seq<string>)
    ensures |r| <= |teacherSlots|
    ensures forall x :: x in r <==> x in teacherSlots && x in studentSlots
  {
    if teacherSlots == [] then []
    else ((if teacherSlots[0] in studentSlots then [teacherSlots[0]] else [])
          + Overlap(teacherSlots[1..], studentSlots))
  }

  /** `JSON.parse(availability || "[]")`: the empty string parses as the empty list. */
  function ParseAvailability(parse: Parser, availability: string): Parsed {
    parse(if availability == "" then "[]" else availability)
  }

  /** The availability sub-score: the share of the teacher's slots that the
      student lists; 0.5 when either profile is missing or the `catch` is
      reached: either string does not parse, the teacher's value is not a
      list (no `filter`), or the student's value is not a list while the
      teacher has a slot to look up in it (no `includes`). */
  function AvailabilityMatch(teacher: Option<TeacherProfile>, student: Option<StudentProfile>, parse: Parser): real {
    if teacher.Some? && student.Some? then
      var pt := ParseAvailability(parse, teacher.value.availability);
      var ps := ParseAvailability(parse, student.value.availability);
      if pt.Malformed? || ps.Malformed? || !pt.Slots? then 0.5
      else if ps.Slots? then (|Overlap(pt.slots, ps.slots)| as real) / (Max(|pt.slots|, 1) as real)
      else if pt.slots == [] then 0.0
      else 0.5
    else 0.5
  }

  /** The availability sub-score lies in [0, 1]; it is the neutral 0.5
      without both profiles or when the teacher's availability is not a list
      or either one fails to parse, and with two lists it is the share of the
      teacher's slots the student also lists. */
  lemma AvailabilityMatchBounds(teacher: Option<TeacherProfile>, student: Option<StudentProfile>, parse: Parser)
    ensures 0.0 <= AvailabilityMatch(teacher, student, parse) <= 1.0
    ensures teacher.None? || student.None? ==> AvailabilityMatch(teacher, student, parse) == 0.5
    ensures teacher.Some? && student.Some? ==>
      var pt := ParseAvailability(parse, teacher.value.availability);
      var ps := ParseAvailability(parse, student.value.availability);
      && (pt.Malformed? || ps.Malformed? || !pt.Slots? ==> AvailabilityMatch(teacher, student, parse) == 0.5)
      && (pt.Slots? && ps.Slots? ==>
            AvailabilityMatch(teacher, student, parse)
            == (|Overlap(pt.slots, ps.slots)| as real) / (Max(|pt.slots|, 1) as real))
  {
    if teacher.Some? && student.Some? {
      var pt := ParseAvailability(parse, teacher.value.availability);
      var ps := ParseAvailability(parse, student.value.availability);
      if pt.Slots? && ps.Slots? {
        RatioBounds(|Overlap(pt.slots, ps.slots)|, Max(|pt.slots|, 1));
      }
    }
  }

  /** A teacher with no slots scores 0 whatever list-or-value the student's
      availability parses to; with slots, a student value that is not a list
      ends in the `catch` and scores 0.5. */
  lemma AvailabilityNonList(teacher: TeacherProfile, student: StudentProfile, parse: Parser)
    requires ParseAvailability(parse, teacher.availability).Slots?
    ensures var t := ParseAvailability(parse, teacher.availability).slots;
      var ps := ParseAvailability(parse, student.availability);
      && (t == [] && !ps.Malformed? ==> AvailabilityMatch(Some(teacher), Some(student), parse) == 0.0)
      && (t != [] && ps.NotAList? ==> AvailabilityMatch(Some(teacher), Some(student), parse) == 0.5)
  {
    var ps := ParseAvailability(parse, student.availability);
    if ps.Slots? {
      assert |Overlap([], ps.slots)| == 0;
    }
  }

  /** `Overlap` keeps every copy of a shared slot and no copy of any other:
      each slot occurs in the result exactly as often as in the teacher's
      list when the student lists it, and not at all otherwise. */
  lemma {:induction false} OverlapCounts(t: seq<string>, s: seq<string>)
    ensures forall x :: multiset(Overlap(t, s))[x] == if x in s then multiset(t)[x] else 0
  {
    if t != [] {
      OverlapCounts(t[1..], s);
      assert t == [t[0]] + t[1..];
    }
  }

  /** `Overlap` keeps the teacher's order: it distributes over concatenation
      of the teacher's list. */
  lemma {:induction false} OverlapAppend(a: seq<string>, b: seq<string>, s: seq<string>)
    ensures Overlap(a + b, s) == Overlap(a, s) + Overlap(b, s)
  {
    if a == [] {
      assert a + b == b;
    } else {
      assert (a + b)[0] == a[0] && (a + b)[1..] == a[1..] + b;
      OverlapAppend(a[1..], b, s);
    }
  }

  /** Every teacher slot shared with the student gives the full score; no shared slot gives 0. */
  lemma {:induction false} OverlapExtremes(t: seq<string>, s: seq<string>)
    ensures (forall k :: 0 <= k < |t| ==> t[k] in s) ==> Overlap(t, s) == t
    ensures (forall k :: 0 <= k < |t| ==> t[k] !in s) ==> Overlap(t, s) == []
  {
    if t != [] {
      OverlapExtremes(t[1..], s);
    }
  }

  /** 1 for equal learning styles, 0.3 for different ones, 0.5 when either profile is missing. */
  function LearningStyleMatch(teacher: Option<TeacherProfile>, student: Option<StudentProfile>): real {
    if teacher.Some? && student.Some? then
      (if teacher.value.learningStyle == student.value.learningStyle then 1.0 else 0.3)
    else 0.5
  }

  /** 1 for equal paces, 0.5 both for different paces and for a missing profile. */
  function PaceMatch(teacher: Option<TeacherProfile>, student: Option<StudentProfile>): real {
    if teacher.Some? && student.Some? then
      (if teacher.value.preferredPace == student.value.preferredPace then 1.0 else 0.5)
    else 0.5
  }

  /** The two style sub-scores take only their three (respectively two) values. */
  lemma StyleScores(teacher: Option<TeacherProfile>, student: Option<StudentProfile>)
    ensures LearningStyleMatch(teacher, student) in {1.0, 0.3, 0.5}
    ensures LearningStyleMatch(teacher, student) == 1.0
        <==> teacher.Some? && student.Some? && teacher.value.learningStyle == student.value.learningStyle
    ensures LearningStyleMatch(teacher, student) == 0.3
        <==> teacher.Some? && student.Some? && teacher.value.learningStyle != student.value.learningStyle
    ensures PaceMatch(teacher, student) in {1.0, 0.5}
    ensures PaceMatch(teacher, student) == 1.0
        <==> teacher.Some? && student.Some? && teacher.value.preferredPace == student.value.preferredPace
  {
  }

  // ---------------------------------------------------------------------------
  // The total
  // ---------------------------------------------------------------------------

  const SkillWeight: real := 0.4
  const RatingWeight: real := 0.3
  const AvailabilityWeight: real := 0.1
  const StyleWeight: real := 0.1
  const PaceWeight: real := 0.1

  /** The weighted total of a breakdown. */
  function Total(b: Breakdown): real {
    b.skillMatch * SkillWeight + b.ratingScore * RatingWeight + b.availabilityMatch * AvailabilityWeight
      + b.learningStyleMatch * StyleWeight + b.paceMatch * PaceWeight
  }

  /** Every sub-score lies in [0, 1]. */
  predicate InUnit(b: Breakdown) {
    && 0.0 <= b.skillMatch <= 1.0 && 0.0 <= b.ratingScore <= 1.0 && 0.0 <= b.availabilityMatch <= 1.0
    && 0.0 <= b.learningStyleMatch <= 1.0 && 0.0 <= b.paceMatch <= 1.0
  }

  /** The weights sum to 1, so the total of sub-scores in [0, 1] lies in [0, 1],
      and it is 1 only when every sub-score is. */
  lemma TotalBounds(b: Breakdown)
    requires InUnit(b)
    ensures SkillWeight + RatingWeight + AvailabilityWeight + StyleWeight + PaceWeight == 1.0
    ensures 0.0 <= Total(b) <= 1.0
    ensures Total(b) == 1.0 <==> b == Breakdown(1.0, 1.0, 1.0, 1.0, 1.0)
  {
  }

  /** The breakdown `calculateMatchScore` computes. */
  function BreakdownOf(teacher: Teacher, student: Student, skillName: string, parse: Parser): Breakdown {
    Breakdown(
      SkillMatch(teacher.skills, skillName),
      RatingScore(teacher.ratings),
      AvailabilityMatch(teacher.profile, student.profile, parse),
      LearningStyleMatch(teacher.profile, student.profile),
      PaceMatch(teacher.profile, student.profile))
  }

  /** The match score `calculateMatchScore` returns. */
  function ScoreOf(teacher: Teacher, student: Student, skillName: string, parse: Parser): MatchScore {
    var b := BreakdownOf(teacher, student, skillName, parse);
    MatchScore(teacher.id, Total(b), b)
  }

  /** Ratings in [0, 5] keep every sub-score of a teacher, and so the total, in [0, 1]. */
  lemma ScoreOfBounds(teacher: Teacher, student: Student, skillName: string, parse: Parser)
    requires forall k :: 0 <= k < |teacher.ratings| && teacher.ratings[k].Some? ==> 0.0 <= teacher.ratings[k].value <= 5.0
    ensures InUnit(ScoreOf(teacher, student, skillName, parse).breakdown)
    ensures 0.0 <= ScoreOf(teacher, student, skillName, parse).score <= 1.0
  {
    RatingScoreBounds(teacher.ratings);
    AvailabilityMatchBounds(teacher.profile, student.profile, parse);
    TotalBounds(BreakdownOf(teacher, student, skillName, parse));
  }

  /** `calculateMatchScore`: the five sub-scores are set one after another and
      combined with the weights 0.4, 0.3, 0.1, 0.1, 0.1. */
  method CalculateMatchScore(teacher: Teacher, student: Student, skillName: string, parse: Parser)
    returns (m: MatchScore)
    ensures m.teacherId == teacher.id
    ensures m.breakdown.skillMatch == 1.0
        <==> exists k :: 0 <= k < |teacher.skills| && Lower(teacher.skills[k].name) == Lower(skillName) && teacher.skills[k].verified
    ensures m.breakdown.skillMatch == 0.0 || m.breakdown.skillMatch == 1.0
    ensures Present(teacher.ratings) == [] ==> m.breakdown.ratingScore == 0.5
    ensures teacher.profile.None? || student.profile.None? ==>
      m.breakdown.availabilityMatch == 0.5 && m.breakdown.learningStyleMatch == 0.5 && m.breakdown.paceMatch == 0.5
    ensures 0.0 <= m.breakdown.availabilityMatch <= 1.0
    ensures m.score == Total(m.breakdown)
    ensures m == ScoreOf(teacher, student, skillName, parse)
  {
    var skillMatch, ratingScore, availabilityMatch, learningStyleMatch, paceMatch := 0.0, 0.0, 0.0, 0.0, 0.0;

    skillMatch := if HasVerifiedSkill(teacher.skills, skillName) then 1.0 else 0.0;
    SkillMatchExactly(teacher.skills, skillName);

    var ratings := Present(teacher.ratings);
    if |ratings| > 0 {
      var avgRating := Sum(ratings) / (|ratings| as real);
      ratingScore := avgRating / 5.0;
    } else {
      ratingScore := 0.5;
    }
    assert ratingScore == RatingScore(teacher.ratings);

    if teacher.profile.Some? && student.profile.Some? {
      var teacherAvail := ParseAvailability(parse, teacher.profile.value.availability);
      var studentAvail := ParseAvailability(parse, student.profile.value.availability);
      if teacherAvail.Malformed? || studentAvail.Malformed? || !teacherAvail.Slots? {
        availabilityMatch := 0.5;
      } else if studentAvail.Slots? || teacherAvail.slots == [] {
        // with no teacher slot, `includes` is never called on the student's value
        var overlap := if studentAvail.Slots? then Overlap(teacherAvail.slots, studentAvail.slots) else [];
        availabilityMatch := (|overlap| as real) / (Max(|teacherAvail.slots|, 1) as real);
      } else {
        availabilityMatch := 0.5;
      }
    } else {
      availabilityMatch := 0.5;
    }
    assert availabilityMatch == AvailabilityMatch(teacher.profile, student.profile, parse);
    AvailabilityMatchBounds(teacher.profile, student.profile, parse);

    if teacher.profile.Some? && student.profile.Some? {
      learningStyleMatch := if teacher.profile.value.learningStyle == student.profile.value.learningStyle then 1.0 else 0.3;
    } else {
      learningStyleMatch := 0.5;
    }

    if teacher.profile.Some? && student.profile.Some? {
      paceMatch := if teacher.profile.value.preferredPace == student.profile.value.preferredPace then 1.0 else 0.5;
    } else {
      paceMatch := 0.5;
    }

    var breakdown := Breakdown(skillMatch, ratingScore, availabilityMatch, learningStyleMatch, paceMatch);
    m := MatchScore(teacher.id, Total(breakdown), breakdown);
  }

  /** A single skill matches a request that equals its name up to case
      exactly when it is verified (so "JavaScript", verified, matches
      "javascript"). */
  lemma SingleSkillMatch(name: string, query: string, verified: bool)
    requires Lower(name) == Lower(query)
    ensures SkillMatch([Skill(name, verified)], query) == if verified then 1.0 else 0.0
  {
    var skills := [Skill(name, verified)];
    assert !HasVerifiedSkill(skills[1..], query);
    assert HasVerifiedSkill(skills, query) == verified;
  }

  /** Lower-casing `s` gives `t` when they agree letter by letter up to case. */
  lemma LowerWord(s: string, t: string)
    requires |s| == |t| && forall k :: 0 <= k < |s| ==> LowerChar(s[k]) == t[k]
    ensures Lower(s) == t
  {
  }

  // ---------------------------------------------------------------------------
  // Ranking
  // ---------------------------------------------------------------------------

  function ScoreKey(m: MatchScore): real {
    m.score
  }

  /** The score of every teacher, in input order (`teachers.map(...)`). */
  function AllScores(teachers: seq<Teacher>, student: Student, skillName: string, parse: Parser): (r: seq<MatchScore>)
    ensures |r| == |teachers|
    ensures forall k :: 0 <= k < |r| ==> r[k] == ScoreOf(teachers[k], student, skillName, parse)
  {
    seq(|teachers|, k requires 0 <= k < |teachers| => ScoreOf(teachers[k], student, skillName, parse))
  }

  /** `findBestMatches`: the scores sorted by non-increasing total, ties in
      input order, cut by `slice(0, limit)`. */
  function FindBestMatches(teachers: seq<Teacher>, student: Student, skillName: string, limit: int, parse: Parser)
    : (r: seq<MatchScore>)
    ensures |r| == SliceEnd(limit, |teachers|)
    ensures limit >= 0 ==> |r| == if limit < |teachers| then limit else |teachers|
  {
    var scores := AllScores(teachers, student, skillName, parse);
    SortDesc(scores, ScoreKey)[..SliceEnd(limit, |scores|)]
  }

  /** The ranking is the prefix of a stable descending permutation of the
      per-teacher scores: it is sorted, every entry is some teacher's score,
      and the entries of each score value come in input order, leading the
      input's entries of that value. */
  lemma FindBestMatchesCorrect(teachers: seq<Teacher>, student: Student, skillName: string, limit: int, parse: Parser)
    ensures var r := FindBestMatches(teachers, student, skillName, limit, parse);
      var all := SortDesc(AllScores(teachers, student, skillName, parse), ScoreKey);
      && r == all[..|r|]
      && multiset(all) == multiset(AllScores(teachers, student, skillName, parse))
      && SortedDesc(r, ScoreKey)
      && (forall m :: m in r ==> m in AllScores(teachers, student, skillName, parse))
      && (forall v :: WithKey(all, ScoreKey, v) == WithKey(AllScores(teachers, student, skillName, parse), ScoreKey, v))
  {
    var scores := AllScores(teachers, student, skillName, parse);
    var all := SortDesc(scores, ScoreKey);
    var r := FindBestMatches(teachers, student, skillName, limit, parse);
    SortDescCorrect(scores, ScoreKey);
    forall m | m in r ensures m in scores {
      assert m in all;
      assert m in multiset(all);
    }
  }

  // ---------------------------------------------------------------------------
  // Labels and slots
  // ---------------------------------------------------------------------------

  /** The label of a score; `caption` is the source's `label` field (`label` is a Dafny keyword). */
  datatype Quality = Quality(caption: string, color: string, description: string)

  /** `getMatchQuality`: thresholds 0.8, 0.6 and 0.4. */
  function GetMatchQuality(score: real): Quality {
    if score >= 0.8 then Quality("Excellent Match", "green", "Highly compatible based on skills, style, and availability")
    else if score >= 0.6 then Quality("Good Match", "blue", "Well-suited for your learning needs")
    else if score >= 0.4 then Quality("Fair Match", "yellow", "May work well with some adjustments")
    else Quality("Low Match", "gray", "Consider other options for better compatibility")
  }

  /** The rank of a label, from "Low Match" (0) to "Excellent Match" (3). */
  function Rank(q: Quality): nat {
    if q.caption == "Excellent Match" then 3
    else if q.caption == "Good Match" then 2
    else if q.caption == "Fair Match" then 1
    else 0
  }

  /** A higher score never gets a lower label, and the rank counts the thresholds reached. */
  lemma GetMatchQualityMonotone(x: real, y: real)
    requires x <= y
    ensures Rank(GetMatchQuality(x)) <= Rank(GetMatchQuality(y))
    ensures Rank(GetMatchQuality(x)) == (if x >= 0.8 then 3 else if x >= 0.6 then 2 else if x >= 0.4 then 1 else 0)
  {
  }

  datatype Slot = Slot(value: string, caption: string)

  const Days: seq<string> := ["Monday", "Tuesday", "Wednesday", "Thursday", "Friday", "Saturday", "Sunday"]
  const Times: seq<string> := ["Morning (6-12)", "Afternoon (12-18)", "Evening (18-24)"]

  /** `s.split(" ")[0]`: the text before the first space. */
  function FirstWord(s: string): (r: string)
    ensures |r| <= |s| && r == s[..|r|]
    ensures ' ' !in r
    ensures |r| < |s| ==> s[|r|] == ' '
  {
    if s == [] || s[0] == ' ' then [] else [s[0]] + FirstWord(s[1..])
  }

  /** The slot of day `d` and time `t`: the first three letters of the day, an
      underscore and the lower-cased first word of the time; the label is the
      day, a space and the time. */
  function SlotAt(d: nat, t: nat): Slot
    requires d < |Days| && t < |Times|
  {
    Slot(Days[d][..3] + "_" + Lower(FirstWord(Times[t])), Days[d] + " " + Times[t])
  }

  /** `generateTimeSlots`: days in the outer loop, times in the inner one, so
      slot `k` pairs day `k / 3` with time `k % 3`. */
  method GenerateTimeSlots() returns (slots: seq<Slot>)
    ensures |Days| == 7 && |Times| == 3 && |slots| == 21
    ensures forall k :: 0 <= k < |slots| ==> slots[k] == SlotAt(k / 3, k % 3)
  {
    slots := [];
    for d := 0 to |Days|
      invariant |slots| == 3 * d
      invariant forall k :: 0 <= k < |slots| ==> slots[k] == SlotAt(k / 3, k % 3)
    {
      for t := 0 to |Times|
        invariant |slots| == 3 * d + t
        invariant forall k :: 0 <= k < |slots| ==> slots[k] == SlotAt(k / 3, k % 3)
      {
        var value := Days[d][..3] + "_" + Lower(FirstWord(Times[t]));
        var caption := Days[d] + " " + Times[t];
        assert Slot(value, caption) == SlotAt(d, t);
        ghost var before := slots;
        slots := slots + [Slot(value, caption)];
        forall k | 0 <= k < |slots| ensures slots[k] == SlotAt(k / 3, k % 3) {
          if k < |before| {
            assert slots[k] == before[k];
          } else {
            assert k == 3 * d + t && k / 3 == d && k % 3 == t;
          }
        }
      }
    }
  }

  /** The first slot value: Monday's morning. */
  lemma FirstSlotValue()
    ensures SlotAt(0, 0).value == "Mon_morning"
  {
    MorningWord();
    MondayPrefix();
    SlotValueOf(0, 0, "Mon", "morning");
    MondayMorning();
  }

  lemma MondayMorning()
    ensures "Mon" + "_" + "morning" == "Mon_morning"
  {
  }

  /** Monday's three-letter prefix. */
  lemma MondayPrefix()
    ensures Days[0][..3] == "Mon"
  {
    assert Days[0] == "Monday";
  }

  /** A slot's value from its day prefix and its time word. */
  lemma SlotValueOf(d: nat, t: nat, prefix: string, word: string)
    requires d < |Days| && t < |Times|
    requires Days[d][..3] == prefix && Lower(FirstWord(Times[t])) == word
    ensures SlotAt(d, t).value == prefix + "_" + word
  {
  }

  /** The first time's lower-cased first word. */
  lemma MorningWord()
    ensures Lower(FirstWord(Times[0])) == "morning"
  {
    assert Times[0] == "Morning" + " (6-12)";
    SlotWord(0, "Morning", " (6-12)", "morning");
  }

  /** The lower-cased first word of time `t`, when the time is `w` followed by `rest`. */
  lemma SlotWord(t: nat, w: string, rest: string, lower: string)
    requires t < |Times| && Times[t] == w + rest
    requires ' ' !in w && rest != [] && rest[0] == ' '
    requires |w| == |lower| && forall k :: 0 <= k < |w| ==> LowerChar(w[k]) == lower[k]
    ensures Lower(FirstWord(Times[t])) == lower
  {
    FirstWordOf(w, rest);
    LowerWord(w, lower);
  }

  /** The first word of a word followed by a space. */
  lemma {:induction false} FirstWordOf(w: string, rest: string)
    requires ' ' !in w && rest != [] && rest[0] == ' '
    ensures FirstWord(w + rest) == w
  {
    if w != [] {
      assert (w + rest)[1..] == w[1..] + rest;
      FirstWordOf(w[1..], rest);
    } else {
      assert w + rest == rest;
    }
  }
}
