# Peer-learning platform core in Dafny

This project models the computational core of a peer-learning platform, in which students are matched with teachers, skills are verified by a graded test with a plagiarism screen, and sessions are summarised. The model covers six pieces:

- **Plagiarism detection** (`plagiarism.dfy`, module `Plagiarism`).
  - Levenshtein distance, computed by a dynamic-programming method over a two-dimensional array.
  - Code normalisation: comment removal, whitespace collapsing, stripping of spaces around operators, lower-casing and trimming.
  - Tokenisation, and the weighted similarity of two snippets: 60 % edit-distance similarity and 40 % Jaccard similarity of the token sets.
  - The scan over the built-in database of known solutions, and the 0.85 plagiarism threshold.
- **Teacher matching** (`matching.dfy`, module `Matching`).
  - The five sub-scores (skill, rating, availability, learning style, pace) and their weighted total.
  - The stable descending ranking cut to a limit.
  - The quality label, and the 21 availability slots.
- **Session summaries** (`summary.dfy`, module `Summary`).
  - Keyword-frequency topic extraction over the chat messages.
  - The banded learning recommendations.
  - The key-point list.
- **Skill-test grading** (`verify.dfy`, module `SkillVerification`).
  - The coding answer is worth 50 points and is rejected outright when it is plagiarised.
  - Each multiple-choice answer is worth 10 points, of which 7 are credited.
  - The pass mark is 70 %.
- **API error handling** (`errors.dfy`, module `ErrorHandler`).
  - The error classes and their default messages.
  - The mapping from a thrown value to a JSON error response, including the Prisma error-code table.
  - Request-body validation.
- **Environment validation** (`env.dfy`, module `EnvValidation`): required and optional variables, the secret-length warning and the database-URL warning.

`util.dfy` holds the JavaScript string operations the modules share: ASCII `toLowerCase`, the `\s` class, `includes`, `startsWith`, `join` and the `slice` end index. `sorting.dfy` holds the stable sort by a descending numeric key that `Array.prototype.sort` performs with a `b.x - a.x` comparator. The sort is proved to return a permutation that is sorted and keeps the input order among equal keys.

Scores are `real`, so arithmetic is exact. Strings are `seq<char>`.

Identical code does not always score 1.0: a snippet whose normal form has no token (for example `"!!"`) scores 0.6 against itself (`Plagiarism.SimilaritySelf`).

## Model

| member | source | states |
|---|---|---|
| Plagiarism.LevenshteinDistance | lib/plagiarism.ts:10-36 | The matrix method returns the edit distance between the two strings, and that distance is the same with the arguments swapped. |
| Plagiarism.DistIsTextbook | lib/plagiarism.ts:21-33 | The source's recurrence, which copies the diagonal on equal characters, equals the standard minimum-of-three edit-distance recurrence at every cell. |
| Plagiarism.EditDistanceFacts | lib/plagiarism.ts:10-36 | The edit distance is symmetric and 0 on equal strings. It equals the length against the empty string, and lies between the length difference and the longer length. |
| Plagiarism.EditDistanceZero | lib/plagiarism.ts:10-36 | The edit distance is 0 exactly when the strings are equal. |
| Plagiarism.StripLineComments | lib/plagiarism.ts:41 | Removing `//` comments never lengthens the text and leaves no `//`. Text without `//` is unchanged. A text that does not start with `//` keeps its first character, and one that does starts with a line break or becomes empty. |
| Plagiarism.StripBlockComments | lib/plagiarism.ts:42 | Removing `/* … */` comments never lengthens the text, and text without `/*` is unchanged. |
| Plagiarism.CollapseSpaces | lib/plagiarism.ts:43 | Every run of white space becomes one space. Emptiness and the non-space characters are preserved. |
| Plagiarism.StripOpSpacesUnspaced | lib/plagiarism.ts:44 | After stripping, no space is next to an operator character. |
| Plagiarism.Trim | lib/plagiarism.ts:46 | The result is the input without leading and trailing white space. |
| Plagiarism.NormalizeCodeForm | lib/plagiarism.ts:39-47 | A normalised snippet is trimmed, single-spaced, free of spaces next to operators and of upper-case letters. Its non-space characters are those of the comment-free input, lower-cased. |
| Plagiarism.NormalizeCodeFixes | lib/plagiarism.ts:39-47 | Text already in normal form and free of comment openers is its own normal form. |
| Plagiarism.CollapseSpacesAppend | lib/plagiarism.ts:43 | Collapsing distributes over any concatenation that does not split a run of white space. |
| Plagiarism.CollapseSpacesRun | lib/plagiarism.ts:43 | A non-empty run of white space before a non-space character becomes exactly one space. With `CollapseSpacesAppend` this fixes the whole output. |
| Plagiarism.CollapseSpacesJoin | lib/plagiarism.ts:43 | A non-empty run of white space between two non-space characters survives as exactly one space, and each side collapses on its own. |
| Plagiarism.StripOpSpacesAppend | lib/plagiarism.ts:44 | The operator pass distributes over a concatenation whose left part ends in a word character (neither white space nor an operator). |
| Plagiarism.StripOpSpacesLast | lib/plagiarism.ts:44 | The operator pass keeps a final word character. |
| Plagiarism.StripOpSpacesJoin | lib/plagiarism.ts:44 | A single space between two word characters survives the operator pass. |
| Plagiarism.TrimEndAppend | lib/plagiarism.ts:46 | Trimming the end removes trailing white space only, so everything before a non-space character stays. |
| Plagiarism.TrimJoin | lib/plagiarism.ts:46 | Trimming keeps one space between two words and trims each side on its own. |
| Plagiarism.NormalizeCodeKeepsWordBreak | lib/plagiarism.ts:39-47 | In comment-free code, white space between two word characters survives normalisation as exactly one space. The text on each side normalises independently, so `a b` never becomes `ab`. |
| Plagiarism.NormalizeCodeNotIdempotent | lib/plagiarism.ts:39-47 | Normalisation is not idempotent: `x / /y` normalises to `x//y`, which normalises again to `x`. |
| Plagiarism.Tokenize | lib/plagiarism.ts:53 | Every token found is an identifier, a digit run or a single operator character. |
| Plagiarism.TokenizeLongest | lib/plagiarism.ts:53 | The global match is greedy: each token sits at its offset in the text, the offsets run forward without overlap, an identifier token is never followed by an identifier character, and a digit token never by a digit. |
| Plagiarism.TokenizeGreedyExample | lib/plagiarism.ts:53 | `"ab"` is the single token `"ab"`, not `"a"` and `"b"`. |
| Plagiarism.TokenizeKeepsTokenChars | lib/plagiarism.ts:50-54 | The tokens, concatenated, are exactly the token characters of the text in order: nothing is invented, dropped or reordered. |
| Plagiarism.Jaccard | lib/plagiarism.ts:71-75 | Token similarity lies in [0, 1]. It is 1 exactly when the sets are equal and non-empty, and 0 exactly when they are disjoint. |
| Plagiarism.EditSimilarity | lib/plagiarism.ts:63-66 | Edit-distance similarity of non-empty texts lies in [0, 1] and is 1 exactly when the texts are equal. |
| Plagiarism.Similarity | lib/plagiarism.ts:57-79 | The similarity lies in [0, 1]. |
| Plagiarism.SimilarityEmpty | lib/plagiarism.ts:58-61 | The similarity is 0 when either snippet normalises to the empty string. |
| Plagiarism.SimilaritySelf | lib/plagiarism.ts:57-79 | A snippet with a non-empty normal form scores 1 against itself, or 0.6 when it has no token. |
| Plagiarism.SimilarityOne | lib/plagiarism.ts:57-79 | Similarity 1 means equal non-empty normal forms and equal non-empty token sets. |
| Plagiarism.CalculateSimilarity | lib/plagiarism.ts:57-79 | The method computes the similarity function. |
| Plagiarism.Collect | lib/plagiarism.ts:107-116 | Only similarities above 0.6 are collected, each with the database source label. |
| Plagiarism.CollectComplete | lib/plagiarism.ts:107-116 | Every similarity above 0.6 is collected. |
| Plagiarism.ReportedExactly | lib/plagiarism.ts:107-116 | A match is reported exactly when some known solution has that similarity and it exceeds 0.6. |
| Plagiarism.MaxSimilarity | lib/plagiarism.ts:119 | The score is 0 without matches. Otherwise it is one of the matches' similarities and no match exceeds it. |
| Plagiarism.KnownLanguages | lib/plagiarism.ts:83-104 | Only JavaScript and Python (in any letter case) have known solutions. Any other language is compared against nothing. |
| Plagiarism.ScanSolutions | lib/plagiarism.ts:105-116 | The scan loop collects exactly the reported matches: one per known solution whose similarity exceeds 0.6, in solution order. |
| Plagiarism.ReportFacts | lib/plagiarism.ts:118-124 | The sorted report is a permutation of the collected matches in non-increasing similarity order, each in (0.6, 1]. The score is the first, and largest, similarity, or 0 without matches. |
| Plagiarism.CheckPlagiarism | lib/plagiarism.ts:100-125 | The matches are the reported ones, sorted by non-increasing similarity as a permutation, all in (0.6, 1]. The score is the first, and largest, similarity, or 0 without matches. |
| Plagiarism.IsPlagiarizedThreshold | lib/plagiarism.ts:132-134 | The threshold 0.85 is inclusive, and a higher score is never judged less plagiarised. |
| Plagiarism.EmptyCodeNotReported | lib/plagiarism.ts:100-125 | Code that normalises to nothing (for example only comments) is never reported or judged plagiarised. |
| Sorting.SortDescCorrect | lib/plagiarism.ts:123 | The comparator sort returns a permutation, sorted by non-increasing key, that keeps input order among equal keys. |
| Matching.SkillMatchExactly | lib/matching-algorithm.ts:52-55 | The skill sub-score is 1 exactly when some verified skill has the requested name up to case, and 0 otherwise. |
| Matching.SingleSkillMatch | lib/matching-algorithm.ts:52-55 | A single skill whose name matches the query up to case scores 1 when verified and 0 when not. |
| Matching.RatingScoreBounds | lib/matching-algorithm.ts:58-66 | The rating sub-score is 0.5 without ratings and lies in [0, 1] for ratings in [0, 5]. |
| Matching.RatingScoreExample | lib/matching-algorithm.ts:58-66 | Null ratings are skipped: ratings 5, null and 4 give 0.9. |
| Matching.Overlap | lib/matching-algorithm.ts:73 | The overlap holds exactly the teacher's slots that the student also lists, and is no longer than the teacher's list. |
| Matching.OverlapCounts | lib/matching-algorithm.ts:73 | Each slot occurs in the overlap exactly as often as in the teacher's list when the student lists it, and not at all otherwise, so duplicates count toward the score. |
| Matching.OverlapAppend | lib/matching-algorithm.ts:73 | The overlap keeps the teacher's order: it distributes over concatenation of the teacher's list. |
| Matching.AvailabilityMatchBounds | lib/matching-algorithm.ts:69-80 | The availability sub-score lies in [0, 1]. It is 0.5 when either profile is missing, when either availability fails to parse, or when the teacher's is not a list. With two lists it is the number of overlapping teacher slots divided by the teacher's slot count (at least 1). |
| Matching.AvailabilityNonList | lib/matching-algorithm.ts:71-77 | A teacher with no slots scores 0 whatever parseable value the student's availability holds, since `includes` is never called; with slots, a student value that is not a list ends in the `catch` with 0.5. |
| Matching.OverlapExtremes | lib/matching-algorithm.ts:73-74 | When the student lists all of the teacher's slots the overlap is the whole list; when none, it is empty. |
| Matching.StyleScores | lib/matching-algorithm.ts:83-100 | Learning style scores 1 when equal, 0.3 when different and 0.5 otherwise. Pace scores 1 exactly when both profiles exist and agree, and 0.5 otherwise. |
| Matching.TotalBounds | lib/matching-algorithm.ts:103-108 | The weights sum to 1. The total of unit sub-scores lies in [0, 1], and is 1 only when every sub-score is 1. |
| Matching.ScoreOfBounds | lib/matching-algorithm.ts:44-121 | For ratings in [0, 5], every sub-score and the total lie in [0, 1]. |
| Matching.CalculateMatchScore | lib/matching-algorithm.ts:44-121 | The method returns the teacher's id and a total equal to the weighted breakdown. The skill score is 1 exactly when a verified skill matches, the rating default is 0.5, and the profile defaults are 0.5. |
| Matching.FindBestMatches | lib/matching-algorithm.ts:126-137 | The result length follows `slice(0, limit)`: `limit` entries when `0 <= limit` and `limit` is below the teacher count, all when `limit` is larger, and the end-relative count when `limit` is negative. |
| Matching.FindBestMatchesCorrect | lib/matching-algorithm.ts:126-137 | The ranking is a prefix of a stable, non-increasing permutation of all the teachers' scores. Every entry is some teacher's score. |
| Matching.GetMatchQualityMonotone | lib/matching-algorithm.ts:142-172 | The label rank counts the thresholds 0.8, 0.6 and 0.4 that are reached, so a higher score never gets a lower label. |
| Matching.GenerateTimeSlots | lib/matching-algorithm.ts:178-193 | There are 21 slots. Slot `k` pairs day `k / 3` with time `k % 3`: its value is the day's three-letter prefix, `_` and the lower-cased first word of the time; its label is the day and the time. |
| Matching.FirstSlotValue | lib/matching-algorithm.ts:186 | The first slot's value is `Mon_morning`. |
| Summary.KeywordsDistinct | lib/ai-summary.ts:58-81 | The 22 keywords are pairwise distinct, so each one is counted at most once per message. |
| Summary.Count | lib/ai-summary.ts:86-93 | A keyword's count is at most the number of messages, and 0 exactly when no message mentions it. |
| Summary.Added | lib/ai-summary.ts:88-92 | One message adds to the dictionary exactly the keywords it mentions that are not yet present, each once. |
| Summary.OrderKeys | lib/ai-summary.ts:83-93 | The dictionary keys are exactly the keywords some message mentions, without repetition. |
| Summary.TallyMessage | lib/ai-summary.ts:87-92 | After one message, every mentioned keyword's count has risen by one, new keys are appended in keyword order, and all other counts are unchanged. |
| Summary.RankKeywords | lib/ai-summary.ts:83-99 | For distinct keywords, the nested loops build the keyword counts, and the result is the first five keywords of the stable sort by count. |
| Summary.ExtractKeyTopics | lib/ai-summary.ts:56-100 | The topics are the ranking over the 22 built-in keywords. |
| Summary.TopTopicsFacts | lib/ai-summary.ts:56-100 | Five topics are returned, or every mentioned keyword when fewer than five are mentioned. Each is a keyword some message mentions, distinct, in non-increasing count order, and a mentioned keyword left out never has a higher count than a returned topic. Every topic is lower-case, and no topic is returned without messages. |
| Summary.TopTopicsComplete | lib/ai-summary.ts:95-99 | The result has min(5, number of mentioned keywords) topics, and a mentioned keyword that is left out means five were returned, each with a count at least as high as its own. |
| Summary.TopTopicMentioned | lib/ai-summary.ts:86-99 | Each returned topic is a keyword mentioned by at least one message, so it contains no upper-case letter. |
| Summary.TopTopicsOrdered | lib/ai-summary.ts:96-99 | Earlier topics have counts at least as high as later ones, and no topic appears twice. |
| Summary.NoUpperInside | lib/ai-summary.ts:87-89 | Any text found inside lower-cased content is itself lower-case. |
| Summary.ApiNeverTopic | lib/ai-summary.ts:67-89 | "API" is a keyword, but it is looked for in lower-cased content, so it is never a topic. |
| Summary.GenerateRecommendations | lib/ai-summary.ts:105-130 | The two items of the session-count band (below 3, below 10, otherwise) come first. A third item follows only for an average rating of at least 3.5: praise from 4.5, otherwise advice to schedule more sessions. |
| Summary.KeyPoints | lib/ai-summary.ts:36-41 | The three fixed points come first. A fourth, "Explored … in detail" for the first topic, is added exactly when there is a topic. |
| SkillVerification.Language | app/api/skills/verify/route.ts:13 | An absent language defaults to "javascript". |
| SkillVerification.GradeOf | app/api/skills/verify/route.ts:19-72 | The earned points never exceed the available ones. The maximum is 0 only with no answers at all. The shortfall is 25 for partial coding credit plus 3 per multiple-choice answer. |
| SkillVerification.PassedIntegral | app/api/skills/verify/route.ts:75 | Passing at a 0.7 ratio means a non-zero maximum and 10 × earned ≥ 7 × available. |
| SkillVerification.PassedExactly | app/api/skills/verify/route.ts:19-75 | Without a coding answer, any multiple-choice answer passes. With one, exactly full coding credit passes, and partial credit always fails. |
| SkillVerification.PlagiarismScore | app/api/skills/verify/route.ts:28-29 | The plagiarism score is 0 or above the 0.6 reporting threshold, and at most 1. |
| SkillVerification.VerifySkill | app/api/skills/verify/route.ts:19-75 | A non-empty coding answer whose plagiarism score reaches 0.85 is rejected with its score and sorted matches. Any other submission gets the computed grade, a pass exactly at 70 % of a non-zero maximum, and a plagiarism score below 0.85. |
| ErrorHandler.NewAuthenticationError | lib/error-handler.ts:163-168 | Without a message, the error carries "Authentication required". |
| ErrorHandler.NewAuthorizationError | lib/error-handler.ts:170-175 | Without a message, the error carries "Insufficient permissions". |
| ErrorHandler.NewNotFoundError | lib/error-handler.ts:177-182 | Without a message, the error carries "Resource not found". |
| ErrorHandler.HandlePrismaError | lib/error-handler.ts:105-148 | P2002 gives 409 "Duplicate Entry" with its fixed message and the error's meta. P2025 gives 404 "Not Found" and P2003 gives 400 "Foreign Key Constraint", each with its fixed message. Any other code gives 500 "Database Error". The 500 carries the error object as details only outside production. The body's status code always matches the response status. |
| ErrorHandler.CreateErrorResponse | lib/error-handler.ts:17-100 | The status is one of 400/401/403/404/409/500 and matches the body. Validation gives 400 with its details; authentication is exactly 401 and authorization exactly 403; not-found gives 404. Client errors pass their message through. Each class has its own title ("Validation Error", "Authentication Error", "Authorization Error", "Not Found"). A Prisma error gets exactly the Prisma handler's response. Anything else is a 500 titled "Internal Server Error" that says only the default message, except for a plain Error outside production. |
| ErrorHandler.ProductionHidesInternals | lib/error-handler.ts:78-99 | In production, a 500 response carries no details and no thrown message. |
| ErrorHandler.DefaultMessages | lib/error-handler.ts:41-75 | Authentication, authorization and not-found errors built without a message answer 401, 403 and 404 with their default messages. |
| ErrorHandler.MissingOf | lib/error-handler.ts:195-197 | The missing fields are exactly the required fields absent from the body. |
| ErrorHandler.MissingOfSingle | lib/error-handler.ts:195-197 | One required field is reported exactly when it is absent. |
| ErrorHandler.MissingOfAppend | lib/error-handler.ts:195-197 | The missing list distributes over concatenation of the required fields, so it keeps their order and lists each absent occurrence once. |
| ErrorHandler.ValidateRequestBody | lib/error-handler.ts:187-207 | The body is accepted unchanged exactly when it is a non-null object with every required field. A non-object gets "Request body is required". An object with missing fields gets "Missing required fields: " followed by the comma-joined list, with the list as details. |
| ErrorHandler.RejectedBodyIs400 | lib/error-handler.ts:187-207 | A rejected body, passed to the error handler, answers 400 "Validation Error", with the missing fields as details when the body was an object. |
| EnvValidation.Unset | lib/env-validation.ts:33-44 | The unset list holds exactly the named variables that are undefined or empty. |
| EnvValidation.UnsetSingle | lib/env-validation.ts:33-37 | One variable is listed exactly when it is unset. |
| EnvValidation.UnsetAppend | lib/env-validation.ts:33-37 | The unset list distributes over concatenation of the names, so it keeps their order and lists each unset occurrence once. |
| EnvValidation.UnsetVars | lib/env-validation.ts:33-37 | The loop pushes exactly the unset variables, in order. |
| EnvValidation.ValidateEnv | lib/env-validation.ts:28-64 | The missing list is the unset required variables, and the configuration is valid exactly when every required variable is set. The warnings are the unset optional variables, then the short-secret warning (secret set and under 32 characters), then the database-URL warning (URL set and neither `postgresql://` nor `file:`). |
| EnvValidation.ValidationMeaning | lib/env-validation.ts:28-64 | A variable is reported missing exactly when it is required and unset, and nothing is missing exactly when all required variables are set. At most 3 variables are missing and at most 6 unset optional variables are warned about. A format warning concerns a variable that is set. |
| EnvValidation.ValidateEnvExtremes | lib/env-validation.ts:7-64 | A complete environment with a long secret and a PostgreSQL URL gives no missing variable and no warning. An empty environment misses all three required variables, in order. |
| EnvValidation.AllUnset | lib/env-validation.ts:33-37 | In the empty environment every variable is unset. |

## Left out

- Unicode: `toLowerCase` is modelled on ASCII letters only, and string `length` counts characters rather than UTF-16 code units.
- Floating point: scores and ratios are exact reals. IEEE rounding, NaN and infinities are not modelled; for example, a NaN average rating gives no rating item.
- `JSON.parse` of the availability strings is a parameter. It returns a list of slot tags, another JSON value, or failure. A student availability that parses to a string is treated like any other non-list value; in the source, `includes` would then test for a substring when the teacher has slots. Array elements that are not strings are not modelled.
- The lookup of the known-solution database does not model inherited object keys such as `constructor`.
- Asynchrony, the 500 ms summary delay, and console logging are left out.
- `generateSessionSummary`: only its topic extraction and key points are modelled. The `content` and `nextSteps` template strings (which format the session duration) and the `messages || []` default are not.
- The skill-verification route around its grading is not part of this model. That covers the session lookup and request parsing, the 400 for a missing user or skill, the Prisma writes, the notifications and the JSON response bodies.
- Skill verification: multiple-choice answers are modelled by their key count. A missing, null or non-object value counts as 0 answers.
- `withErrorHandling` is not modelled. It is a promise wrapper that passes a rejection to `createErrorResponse` with the default message.
- `logEnvValidation` and the import-time call are not modelled; they consist of console output and a production-only throw.
- Error handling: the error classes' `name` field, stack traces and further subclasses are not modelled. Details payloads the source passes through unexamined are opaque values.
- `process.env` is a map parameter, and `NODE_ENV === "production"` is a boolean parameter.
- `findBestMatches`: `limit` is an integer. The default of 10 and the truncation of fractional limits are left to the caller.
