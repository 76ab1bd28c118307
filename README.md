# Study planner: a Dafny model of the plan generator and its clean-ups

The study planner turns a learner's subjects, per-topic weakness levels and
exam dates into a plan: a dictionary from date text (`YYYY-MM-DD`) to the study
sessions of that day. This project models the rule set that builds the plan and
the code around it that shapes its input and output. It then proves what the
rule set guarantees.

- **The generator** (`backend/ml_model.py`, `generate_study_plan`). Subjects
  are processed in the order given.
  - Each weakness topic becomes a one- or two-hour session under today's date.
    It is merged into today's list: an existing session for the same
    (subject, topic) takes the new duration where it stands, and anything else
    is appended.
  - When the exam lies a positive number of whole days ahead, a three-hour
    review goes two days before the exam, unless that date already holds a
    review of the subject.
  - An unparsable exam date, a level that `int()` rejects, or a review date
    before year 1 aborts the whole run with one error.
  - The model has two levels:
    - an imperative level: the methods of `PlanRun`, with the loop, the linear
      search and the in-place updates;
    - a specification level: `PlanGenerator.Generate`, a left fold of one step
      per subject.
  - `GenerateStudyPlan` is proved equal to the specification. The
    specification is proved equal to a two-phase description:
    - every subject's contribution is computed first, and the first error
      aborts;
    - the contributions are then replayed as events on each date's list.
  - Each date's list is then described without replaying it (`PlanLists.Expected`).
- **The backend** (`backend/app.py`).
  - The request checks before the generator runs (no data, invalid JSON,
    missing `subjects`) are modelled, on the decoded JSON value.
  - So is the clean-up after it: per date, only the first session for each
    joined key `subject:topic` is kept, and the result replaces the `plan`
    field.
  - `Pipeline` proves that this clean-up removes nothing from a plan the
    generator produced, provided no subject name contains a colon.
- **The frontend** (`study-planner-frontend/pages/index.js`). Three pieces are
  modelled:
  - `cleanupWeaknesses`, which trims topic names, with later topics winning on
    a clash;
  - the progress counts shown for a returned plan;
  - the level default `parseInt(value, 10) || 1`, with JavaScript's `trim` and
    `parseInt` written out.

Supporting modules:

- `Dicts`: Python dicts and JavaScript objects, as insertion-ordered association
  lists. Assigning to an existing key keeps its place.
- `Dedup`: first occurrences and keep-first filtering by a key.
- `Dates`: the proleptic Gregorian calendar, with Python's day numbers and with
  `strptime`/`strftime` for `%Y-%m-%d`.
- `Digits` and `Json`: decimal digits, and decoded JSON values with Python's
  truthiness.

The current moment (`datetime.now()`) is a parameter: a valid date and the
microseconds since its midnight.

Behaviour of the code worth knowing:

- **An exam on the next day.** The review date is the exam date minus two days.
  For an exam on 2024-01-02 seen on 2024-01-01, that is 2023-12-31. The review
  is created only when the run happens at exactly midnight.
  At any later moment `(exam - now).days` is 0, and no review is made
  (`PlanExamples.WorkedCaseAtMidnight`, `PlanExamples.WorkedCaseLater`).
- **A weakness topic literally named "Review".** When the review date is today,
  that topic's session already holds the (subject, "Review") pair, so the
  three-hour review is never added (`PlanExamples.ReviewTopicTakesThePlace`,
  `PlanProperties.ReviewPlaced`).
- **The `subjects` check.** It is Python's `in` on whatever value was decoded.
  - A list holding the string `"subjects"` passes.
  - Any string containing `subjects` passes.
  - `{"subjects": []}` passes.
  - A non-zero number or `true` raises inside the handler and gives status 500
    (`RequestCheck.CheckRequest`, `RequestCheck.Examples`).
- **The clean-up key.** Subject `"a:b"` with topic `"c"` and subject `"a"` with
  topic `"b:c"` share the key `a:b:c`, so the second session is dropped
  (`Cleanup.KeyCollision`).

## Model

| member | source | states |
|---|---|---|
| Dates.PrevDay | backend/ml_model.py:67 | the day before a valid date is a valid date with day number one less; there is none exactly for 0001-01-01 |
| Dates.TwoDaysBefore | backend/ml_model.py:67 | `exam - timedelta(days=2)`, when defined, is a valid date exactly two day numbers earlier |
| Dates.TwoDaysBeforeUndefined | backend/ml_model.py:67 | going back two days fails exactly for the first two days of year 1 |
| Dates.FormatDate | backend/ml_model.py:46 | `strftime("%Y-%m-%d")` text has ten characters: four digits, a dash, two digits, a dash, two digits |
| Dates.FormatDateFields | backend/ml_model.py:46 | the three digit fields spell the year, the month and the day, so the text is the zero-padded `YYYY-MM-DD` |
| Dates.MonthField | backend/ml_model.py:21 | an accepted `%m` field is a month from 1 to 12 |
| Dates.DayField | backend/ml_model.py:21 | an accepted `%d` field is a day from 1 to 31 |
| Dates.ParseDate | backend/ml_model.py:21 | `strptime` with `%Y-%m-%d` yields only valid calendar dates |
| Dates.ParseFormat | backend/ml_model.py:21 | parsing the text `strftime` writes gives the same date back |
| Dates.FormatDateInjective | backend/ml_model.py:68 | two different dates never share a date key |
| PlanGenerator.SessionLength | backend/ml_model.py:34 | the duration is "2h" exactly for levels above 3 and "1h" exactly for the others |
| PlanGenerator.DaysUntilFloor | backend/ml_model.py:22 | `(exam - now).days` is the difference of day numbers, one less unless `now` is exactly midnight |
| PlanGenerator.ExamOf | backend/ml_model.py:15-26 | a parsed exam date is a valid date |
| PlanGenerator.TopicSessionsSpec | backend/ml_model.py:29-43 | one session per weakness topic, in the topics' order, with the duration its level asks for; failure exactly when some level is not an integer, naming the first such topic |
| PlanGenerator.FindPair | backend/ml_model.py:53-55 | the search returns the first position holding the (subject, topic), or the length when none does |
| PlanGenerator.FindPairPresent | backend/ml_model.py:53-57 | a session is found exactly when the pair occurs in the list |
| PlanGenerator.RunStepsNext | backend/ml_model.py:13 | proof helper for the loop: one more subject runs one more step on the plan built so far |
| PlanGenerator.RunStepsError | backend/ml_model.py:23-26 | once a subject has failed, the whole run ends with that error |
| PlanLists.MergeSessionRule | backend/ml_model.py:51-62 | a merge adds the pair only if it is new, at the end; the session for that pair becomes the merged one in the same place; every other session is unchanged |
| PlanLists.MergeSessionFrom | backend/ml_model.py:51-62 | a merge introduces no session other than the merged one |
| PlanLists.MergeSessionKeeps | backend/ml_model.py:51-62 | after a merge the merged session is present, and so is every session with another pair |
| PlanLists.MergeTwiceLastWins | backend/ml_model.py:53-59 | merging the same pair twice leaves one session for it, with the later duration |
| PlanLists.AddReviewRule | backend/ml_model.py:72-75 | the review is appended exactly when the subject has no review on that date; otherwise the list is left exactly as it is |
| PlanLists.AddReviewIdempotent | backend/ml_model.py:72-75 | offering the same review twice is the same as offering it once |
| PlanLists.MergeAllPairs | backend/ml_model.py:51-62 | merging a batch adds each new pair once, in order, and never repeats a pair |
| PlanLists.MergeAllFrom | backend/ml_model.py:51-62 | after a batch merge every session comes from the list or from the batch |
| PlanLists.MergeAllPlaces | backend/ml_model.py:51-62 | every session of a batch without repeated pairs ends up in the list |
| PlanLists.MergeAllKeeps | backend/ml_model.py:51-62 | a batch merge keeps every session whose pair the batch does not touch |
| PlanLists.ExpectedPairs | backend/ml_model.py:51-75 | the described list has the pairs in the order they first arrive, each once |
| PlanLists.ExpectedTopic | backend/ml_model.py:51-62 | merging a topic session into a described list is the described list of one more event |
| PlanLists.ExpectedReview | backend/ml_model.py:72-75 | offering a review to a described list is the described list of one more event |
| PlanLists.PerformAllExpected | backend/ml_model.py:51-75 | replaying a date's events from an empty list gives exactly the described list: the last topic session per pair, else the review |
| PlanLists.ExpectedHas | backend/ml_model.py:51-75 | every pair the events bring has its session in the described list |
| PlanLists.ExpectedFrom | backend/ml_model.py:51-75 | every session of the described list is the last topic session of its pair, or a requested review when no topic session has that pair |
| PlanLists.ExpectedTopicUnique | backend/ml_model.py:51-62 | a topic session that is the only one for its pair is in the described list |
| PlanLists.LastTopicFacts | backend/ml_model.py:57-59 | the last topic session for a pair has that pair and came from the events; there is none exactly when no topic event has the pair |
| PlanBuild.ApplyKeys | backend/ml_model.py:46-70 | one more subject adds today and then its review date to the plan's dates, each only if new |
| PlanBuild.BuildKeys | backend/ml_model.py:46-70 | the plan's dates are the dates written to, each once, in the order they are first written |
| PlanBuild.ApplyList | backend/ml_model.py:46-75 | one more subject performs its topic merges today and its review on its review date, on each date's list |
| PlanBuild.BuildLists | backend/ml_model.py:46-75 | each date's list is what its events, performed in order on an empty list, leave |
| PlanBuild.BuildDay | backend/ml_model.py:46-75 | each date's list is the described list of its events and holds no pair twice |
| PlanBuild.ContributionsUpToSpec | backend/ml_model.py:13-79 | the first phase succeeds exactly when every subject does, with their contributions in order; otherwise it fails with the first failing subject's error |
| PlanBuild.RunStepsTwoPhase | backend/ml_model.py:13-79 | the subject-by-subject run equals the first phase's error, or the plan its contributions build |
| PlanBuild.GenerateTwoPhase | backend/ml_model.py:13-79 | the generator's run is the two phases |
| PlanProperties.ReviewKeyOfSpec | backend/ml_model.py:65-79 | a review date exists exactly when the exam lies ahead by more than one day number, or by one at midnight; the date computation fails only for exam 0001-01-02 seen at midnight of 0001-01-01 |
| PlanProperties.ReviewOverflow | backend/ml_model.py:65-67 | a positive day count to an exam on day number 2 or earlier happens only for exam 0001-01-02 at midnight of 0001-01-01 |
| PlanProperties.ReviewDateBound | backend/ml_model.py:65-70 | the review key reads back as the date two days before the exam, never earlier than yesterday (today at midnight) |
| PlanProperties.ContributeOutcome | backend/ml_model.py:17-79 | a subject fails exactly when its exam text is truthy but not a date, a level is not an integer, or the review date falls before year 1; the checks run in that order, and a level error names the first such topic |
| PlanProperties.ContributeSpec | backend/ml_model.py:17-70 | a successful subject contributes one session per topic in order with its duration, and a review date exactly when its review is due |
| PlanProperties.GenerateBuild | backend/ml_model.py:13-79 | a successful run is the plan every subject's contribution builds |
| PlanProperties.GenerateContribution | backend/ml_model.py:13-79 | under a successful run, each subject's contribution succeeds and is the one applied |
| PlanProperties.GenerateFailFast | backend/ml_model.py:6-95 | the run succeeds exactly when every subject's contribution does; otherwise there is no plan, only the first failing subject's error |
| PlanProperties.DateStreamMembers | backend/ml_model.py:46-70 | the dates written to are today (once there is a subject) and the subjects' review dates, and nothing else |
| PlanProperties.GenerateDates | backend/ml_model.py:46-70 | the plan holds each date once; today comes first when there is a subject, the other dates are review dates, and no subjects give an empty plan |
| PlanProperties.DayEventsTopic | backend/ml_model.py:46-62 | topic sessions reach only today's list, from some subject's sessions |
| PlanProperties.DayEventsReview | backend/ml_model.py:67-75 | a subject's review reaches only its own review date |
| PlanProperties.GenerateDay | backend/ml_model.py:28-75 | each date's list of a generated plan is the described list of the events reaching that date |
| PlanProperties.GenerateUnique | backend/ml_model.py:50-75 | no date's list holds two sessions with the same (subject, topic), even when a subject is listed twice |
| PlanProperties.ContributedTopic | backend/ml_model.py:28-39 | every contributed topic session is the one a weakness topic of a listed subject asks for |
| PlanProperties.TodayPairUnique | backend/ml_model.py:28-62 | with distinct topic names, a contributed topic session is the only one for its pair among today's events |
| PlanProperties.SamePairSameTopic | backend/ml_model.py:28-39 | with distinct topic names, two contributed sessions with the same pair are equal |
| PlanProperties.TopicPlaced | backend/ml_model.py:28-62 | every weakness topic of every subject has its session, with its duration, under today's date |
| PlanProperties.ReviewPlaced | backend/ml_model.py:64-75 | a subject with a review date has its (subject, "Review") pair there; it is the three-hour review unless the date is today and "Review" is one of its topics |
| PlanProperties.PlanSound | backend/ml_model.py:13-75 | every session belongs to a listed subject: under today's date it is a weakness topic's session, and otherwise it is the subject's review under its review date |
| PlanRun.FindSession | backend/ml_model.py:53-55 | the loop finds the first session for (subject, topic), as `FindPair` |
| PlanRun.HasReview | backend/ml_model.py:74 | true exactly when the list has the subject's review pair |
| PlanRun.ReadExam | backend/ml_model.py:15-26 | the exam lookup and parse give `ExamOf` |
| PlanRun.BuildSessions | backend/ml_model.py:29-43 | the topic loop gives `TopicSessions`, aborting on the first bad level |
| PlanRun.MergeToday | backend/ml_model.py:46-62 | today's list, created when missing, receives every session merged in turn; no date then holds a repeated pair |
| PlanRun.InsertReview | backend/ml_model.py:67-75 | the review date's list, created when missing, receives the review unless one is there; no repeated pair arises |
| PlanRun.ReviewKey | backend/ml_model.py:64-68 | the review date text, computed as `ReviewKeyOf` |
| PlanRun.StepOk | backend/ml_model.py:13-75 | proof helper for the loop: a subject whose checks all pass adds its sessions and review to the plan |
| PlanRun.StepError | backend/ml_model.py:23-79 | proof helper for the loop: a subject that fails a check makes its step fail with that error |
| PlanRun.ProcessSubject | backend/ml_model.py:13-79 | the loop body is one `Step` and keeps every list free of repeated pairs |
| PlanRun.Advance | backend/ml_model.py:13-79 | one turn of the loop extends the run by one subject, or ends it with the run's error |
| PlanRun.RunLoop | backend/ml_model.py:13-79 | the loop over the subjects yields the fold of the steps, a plan without repeated pairs in any list |
| PlanRun.GenerateStudyPlan | backend/ml_model.py:6-95 | `generate_study_plan` computes `Generate`, and a produced plan has no repeated pair in any date's list |
| PlanRun.TopicSessionsPrefixError | backend/ml_model.py:40-43 | a level error in a prefix of the topics is the error of the whole topic loop |
| PlanExamples.ParseJan2 | backend/ml_model.py:21 | "2024-01-02" parses to that date |
| PlanExamples.ParseJan3 | backend/ml_model.py:21 | "2024-01-03" parses to that date |
| PlanExamples.TodayText | backend/ml_model.py:46 | 2024-01-01 is written "2024-01-01" |
| PlanExamples.ReviewDayText | backend/ml_model.py:68 | 2023-12-31 is written "2023-12-31" |
| PlanExamples.NextDayExamAtMidnight | backend/ml_model.py:65-68 | at midnight an exam on the next day is one day away, and its review falls on yesterday |
| PlanExamples.ExamTomorrowAtMidnight | backend/ml_model.py:65-68 | at midnight of 2024-01-01 an exam on 2024-01-02 gets its review on 2023-12-31 |
| PlanExamples.ExamTomorrowLater | backend/ml_model.py:22-65 | later on 2024-01-01 the same exam is zero days away and gets no review |
| PlanExamples.ExamInTwoDaysAtMidnight | backend/ml_model.py:65-68 | at midnight of 2024-01-01 an exam on 2024-01-03 gets its review on 2024-01-01 |
| PlanExamples.OneSubjectContribution | backend/ml_model.py:13-79 | a one-subject, one-topic request contributes its one session and its review date, if any |
| PlanExamples.SingleSubject | backend/ml_model.py:13 | proof helper for the examples: a one-subject run is that subject's step on the empty plan |
| PlanExamples.MergeFirst | backend/ml_model.py:46-62 | the first session on an empty plan makes today's list |
| PlanExamples.ApplyFirst | backend/ml_model.py:46-75 | with a review on another day, the first subject makes a plan of two dates |
| PlanExamples.ApplyFirstNoReview | backend/ml_model.py:46-62 | without a review, the first subject makes today's list alone |
| PlanExamples.ApplyFirstReviewToday | backend/ml_model.py:51-75 | a topic named "Review" with the review due today suppresses the three-hour review |
| PlanExamples.WorkedCaseAtMidnight | backend/ml_model.py:6-95 | Math/Algebra level 4, exam 2024-01-02, at midnight of 2024-01-01: a two-hour session today and the review on 2023-12-31 |
| PlanExamples.WorkedCaseLater | backend/ml_model.py:6-95 | the same request later that day: the session today and no review |
| PlanExamples.ReviewTopicTakesThePlace | backend/ml_model.py:51-75 | topic "Review" level 1 with the review due today: the plan holds only the one-hour "Review" session |
| Dicts.PutKeys | backend/ml_model.py:47-48 | assignment appends a new key at the end and keeps an existing key in place; keys stay distinct |
| Dicts.PutGet | backend/ml_model.py:48 | after assignment the key maps to the new value and every other key keeps its value |
| Dicts.MapValuesGet | backend/app.py:140 | over distinct keys, a per-key transformed dictionary has the same keys, each with its value transformed |
| Dicts.RekeyKeys | study-planner-frontend/pages/index.js:50-51 | renamed keys appear in the order each first appears |
| Dicts.RekeyGet | study-planner-frontend/pages/index.js:50-51 | a renamed key holds the value of the last entry renamed to it |
| Cleanup.CleanSessions | backend/app.py:131-138 | the loop with a seen-set keeps exactly the sessions that are first with their key |
| Cleanup.KeepFirstFacts | backend/app.py:131-138 | the cleaned list is the subsequence of first-with-their-key sessions in the original order; it has every key once, and cleaning it again changes nothing |
| Cleanup.KeyCollision | backend/app.py:135-137 | two sessions with different (subject, topic) but the same joined key: the second is dropped |
| Cleanup.KeyInjective | backend/app.py:135 | without a colon in the subject, equal keys mean equal (subject, topic) |
| Cleanup.CleanPlanDates | backend/app.py:129-140 | the loop over the dates gives each date its cleaned list |
| Cleanup.CleanDatesLists | backend/app.py:130-140 | the cleaned plan has the same dates in the same order, empty lists included, each with its list cleaned |
| Cleanup.CleanDatesUnique | backend/app.py:131-140 | after clean-up no date's list has a repeated key |
| Cleanup.CleanDatesIdempotent | backend/app.py:129-140 | cleaning a cleaned plan changes nothing |
| Cleanup.CleanDatesUnchanged | backend/app.py:129-140 | a plan whose lists have distinct keys is left as it is |
| Cleanup.CleanUp | backend/app.py:128-142 | the clean-up of the decoded output is `CleanEnvelope`: the `plan` field, empty when missing, replaced by its cleaned dates; only generator-shaped plans (dates to lists of sessions) are modelled, and any other `plan` value is treated as raising |
| Cleanup.CleanEnvelopeFields | backend/app.py:130-142 | only the `plan` field changes (it is added last when missing); every other field keeps its value and its place |
| Cleanup.CleanEnvelopeIdempotent | backend/app.py:128-142 | cleaning the output twice is cleaning it once |
| Pipeline.KeysFromPairs | backend/app.py:135 | distinct (subject, topic) pairs give distinct joined keys when no subject has a colon |
| Pipeline.CleanupKeepsGenerated | backend/app.py:128-142 | for a plan the generator produced, with no colon in any subject, clean-up returns the output unchanged |
| RequestCheck.Contains | backend/app.py:74 | Python's `in` is defined on objects, lists and strings, and raises exactly on null, booleans and numbers |
| RequestCheck.CheckRequest | backend/app.py:52-81 | an empty body is "no data", then an undecodable one is "invalid JSON"; a request passes exactly when it is non-empty, decodes and holds `subjects`, and passes unchanged; it ends in an internal error exactly for `true` or a non-zero number |
| RequestCheck.ObjectRequest | backend/app.py:74-81 | an object passes exactly when it has a `subjects` key, whatever that key holds; otherwise it is rejected with 400 |
| RequestCheck.FalsyRejected | backend/app.py:74-81 | a falsy value (null, false, 0, "", [], {}) is rejected with 400 "Missing subjects" |
| RequestCheck.Examples | backend/app.py:74-81 | `{}` is rejected; `{"subjects": []}`, `["subjects"]` and `"no subjects"` pass; `"subject"` is rejected; `7` raises |
| Frontend.CleanupWeaknesses | study-planner-frontend/pages/index.js:43-57 | the nested loops produce `CleanWeaknesses`: each subject's topics assigned under their trimmed names |
| Frontend.TrimTopicsNames | study-planner-frontend/pages/index.js:49-52 | the cleaned names are exactly the trimmed names, each once and without whitespace at either end, and there are never more topics than before |
| Frontend.TrimTopicsLastWins | study-planner-frontend/pages/index.js:49-52 | a cleaned topic holds the level of the last topic that trims to its name; a name no topic trims to is absent |
| Frontend.TrimTopicsIdempotent | study-planner-frontend/pages/index.js:49-52 | trimming the topics twice is trimming them once |
| Frontend.CleanWeaknessesSubjects | study-planner-frontend/pages/index.js:47-54 | the cleaned object has the same subjects, each holding its topics trimmed |
| Frontend.CleanWeaknessesIdempotent | study-planner-frontend/pages/index.js:43-57 | cleaning the weaknesses twice is cleaning them once |
| Frontend.SessionCountAll | study-planner-frontend/pages/index.js:85-87 | the `reduce` over the plan's lists counts every session of the plan |
| Frontend.StatsOf | study-planner-frontend/pages/index.js:84-93 | the total and the not-started counts are the number of sessions; completed and in-progress are 0 |
| Frontend.CleanupCount | study-planner-frontend/pages/index.js:84-93 | the backend's clean-up can only lower the session count the frontend shows |
| JsText.Trim | study-planner-frontend/pages/index.js:51 | `trim` leaves no whitespace at either end |
| JsText.TrimSlice | study-planner-frontend/pages/index.js:51 | `trim` removes only whitespace, from both ends, and keeps the middle unchanged |
| JsText.TrimTrimmed | study-planner-frontend/pages/index.js:51 | a string without whitespace at its ends is its own trim |
| JsText.TrimIdempotent | study-planner-frontend/pages/index.js:51 | trimming twice is trimming once |
| JsText.ParseDigits | study-planner-frontend/pages/index.js:143 | `parseInt` reads an optional minus and a run of digits as the signed number, ignoring what follows |
| JsText.ParseSpell | study-planner-frontend/pages/index.js:143 | `parseInt` reads back the decimal spelling of any integer, even with a fraction after it |
| JsText.LevelDefault | study-planner-frontend/pages/index.js:143 | the level is never 0 |
| JsText.LevelOfNumber | study-planner-frontend/pages/index.js:143 | a typed integer is the level, except 0, which becomes 1 |
| JsText.LevelOfText | study-planner-frontend/pages/index.js:143 | text without a digit gives level 1 |
| JsText.LevelWithoutDigits | study-planner-frontend/pages/index.js:143 | an empty field and "abc" give level 1 |
| JsText.LevelWithDigits | study-planner-frontend/pages/index.js:143 | " 4.5" gives 4, "-3" gives -3, and "-0" gives 1 |

## Left out

- The HTTP layer is not modelled: Flask routing, CORS, logging and the response
  bodies' exact error texts. Only which rejection happens and its status are
  modelled.
- The sqlite persistence of a plan (`backend/app.py:182-196`) and the list
  endpoints are I/O. They are not modelled.
- The backend runs the generator as a subprocess (`backend/app.py:84-123`) and
  answers 500 when it fails, as it does when the clean-up raises
  (`backend/app.py:157-181`). That process handling is not modelled, and
  neither is the generator's command-line entry point
  (`backend/ml_model.py:97` onwards). `run_model.py` is not part of this
  model.
- JSON text is neither encoded nor decoded. The model starts from decoded values:
  - `Json` for the request;
  - `Envelope` for the generator's output;
  - `Request` for the generator's input. It is an abstraction: subjects as
    strings, weakness levels as `Level` (what `int()` accepts or rejects), and
    exam values as text or a truthiness.
- `Request` holds only subjects that are strings, in a list, and `weaknesses`
  and `exams` that are objects. Inputs of other shapes are not modelled:
  - A subject that is a number, `null` or a boolean is not modelled. The lookups
    at `backend/ml_model.py:14-15` do not raise for it and find nothing, so it
    only adds today's date (lines 46-48), like a string subject with no
    weaknesses and no exam.
  - A subject that is a list or an object is not modelled. The lookups raise,
    and the run ends in the generic error exit (`backend/ml_model.py:92-95`).
  - A `subjects` value that is a string is not modelled. Line 13 iterates its
    characters as subjects.
  - A `subjects` value that is an object is not modelled. Line 13 iterates its
    keys.
  - A `subjects` value that is `null`, a number or a boolean is not modelled.
    It raises at line 13.
  - A `weaknesses` or `exams` value that is `null` or not an object is not
    modelled. It raises at lines 14-15 once there is a subject.
  - A weakness entry that is not an object is not modelled. It raises at line
    30.

  Each raising case ends in the generic error exit.
- A truthy exam value that is not a string makes `strptime` raise `TypeError`,
  not `ValueError`. The source then leaves through the generic handler instead
  of the exam-date handler. The model reports an exam-date error for both: the
  output differs only in its message text.
- Error outputs are modelled as the error kinds of `GenError`, not as their
  message texts.
- `datetime.now()` is a parameter (`Moment`). Time zones and the clock itself
  are outside the model.
- `int()` of floats, booleans and numeric strings is reduced to `Level`: a
  coerced integer or a rejection. Floating-point numbers are not modelled
  anywhere, and JSON numbers are integers.
- JavaScript object key order is simplified. Integer-like keys come first in
  numeric order in JavaScript, but the model keeps insertion order for all keys.
- Frontend.CleanupWeaknesses does not model the `__proto__` key. A topic named
  `__proto__` (`study-planner-frontend/pages/index.js:51`) or a subject of that
  name (line 53) is assigned to the object's prototype. It is not stored as a
  key, so it drops out of the cleaned object. `Dicts.Rekey` and
  `Dicts.MapValues` keep such a key like any other.
- JavaScript strings are modelled as sequences of code points, not UTF-16 code
  units.
- Dates.ParseDate accepts ASCII digits only. CPython's `%Y`, `%m` and `%d`
  patterns use `\d`. On a text pattern that matches any Unicode decimal digit,
  and `int()` converts those digits. So an exam date written in, for example,
  fullwidth digits parses in the source but is an exam-date error in the model.
- `parseInt` is modelled for ASCII decimal digits, with results as unbounded
  integers. Precision loss on very long digit strings is not modelled.
- The frontend's React state, `fetch`, routing, and the `plan.js` page that
  displays the plan are UI and I/O. They are not modelled.
- The parts of the pipeline do not connect:
  - The frontend sends `cleanedWeaknesses` and `exams`.
  - The backend stores `weaknesses` and `exam_dates`.
  - The generator reads `weaknesses` and `exams`.

  Each part is modelled on the keys it itself uses, and the mismatch is not
  modelled.
- A JSON object with duplicate keys is not modelled. Python's decoder keeps the
  last value of a duplicate key.
- Cleanup.CleanUp models only generator-shaped `plan` values: a dictionary
  from dates to lists of sessions with a subject, a topic and a duration. The
  source reads only `subject` and `topic` (`backend/app.py:133-137`), so it
  accepts session objects that lack `duration` or carry extra keys. It also
  keeps a date whose value is `""` or `{}`, since iterating it yields
  nothing. The model treats every such value as raising.
- Cleanup.CleanDatesIdempotent requires distinct dates. That is what every
  decoded dictionary has.
- Cleanup.CleanEnvelopeIdempotent requires distinct dates, for the same reason.
- Cleanup.CleanDatesLists requires distinct dates. Without it, only the key
  order is stated (`Dicts.MapValuesKeys`).
- Frontend.CleanWeaknessesIdempotent requires distinct subject names. That is
  what a JavaScript object has.
- Frontend.CleanupCount requires distinct dates, for the same reason.
- PlanProperties.TopicPlaced requires the subject's topics to be distinct keys.
  The request's JSON object guarantees it. With repeated topics, only the last
  one's session is guaranteed.
- Pipeline.CleanupKeepsGenerated assumes no subject name contains a colon. With
  a colon, `Cleanup.KeyCollision` shows that clean-up can drop a generated
  session.
