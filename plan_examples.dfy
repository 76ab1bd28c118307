/**
  Worked cases of the generator around the day-count gate and the two
  duplicate policies: an exam on the day after the reference date gets a review
  only when the run happens exactly at midnight, and then on the day before the
  reference date; a weakness topic named "Review" takes the place of the review
  session when both fall on today.
*/
module PlanExamples {
  import opened Wrappers
  import opened Dicts
  import opened Dates
  import opened PlanGenerator
  import opened PlanLists

  lemma ParseJan2()
    ensures ParseDate("2024-01-02") == Some(Date(2024, 1, 2))
  {
    ParseFormat(Date(2024, 1, 2));
    assert FormatDate(Date(2024, 1, 2)) == "2024-01-02";
  }

  lemma ParseJan3()
    ensures ParseDate("2024-01-03") == Some(Date(2024, 1, 3))
  {
    ParseFormat(Date(2024, 1, 3));
    assert FormatDate(Date(2024, 1, 3)) == "2024-01-03";
  }

  lemma TodayText()
    ensures FormatDate(Date(2024, 1, 1)) == "2024-01-01"
  {
    assert Pad4(2024) == "2024";
  }

  lemma ReviewDayText()
    ensures FormatDate(Date(2023, 12, 31)) == "2023-12-31"
  {
    assert Pad4(2023) == "2023";
  }

  /**
    At midnight, an exam on the next day is one whole day away, so it gets a
    review, two days before the exam: the day before the reference date.
  */
  lemma NextDayExamAtMidnight(exam: Date, clock: Moment)
    requires ValidDate(exam) && clock.micros == 0 && Ordinal(exam) == Ordinal(clock.today) + 1
    ensures DaysUntil(exam, clock) == 1
    ensures TwoDaysBefore(exam).Some? ==>
              ReviewKeyOf(Some(exam), clock, "Math") == Ok(Some(FormatDate(TwoDaysBefore(exam).value))) &&
              Ordinal(TwoDaysBefore(exam).value) == Ordinal(clock.today) - 1
  {
    DaysUntilFloor(exam, clock);
  }

  /** At midnight of 2024-01-01 an exam on 2024-01-02 gets its review on 2023-12-31. */
  lemma ExamTomorrowAtMidnight()
    ensures ReviewKeyOf(Some(Date(2024, 1, 2)), Clock(Date(2024, 1, 1), 0), "Math") == Ok(Some("2023-12-31"))
  {
    var clock: Moment := Clock(Date(2024, 1, 1), 0);
    OrdinalNextInMonth(Date(2024, 1, 1));
    NextDayExamAtMidnight(Date(2024, 1, 2), clock);
    assert TwoDaysBefore(Date(2024, 1, 2)) == Some(Date(2023, 12, 31));
    ReviewDayText();
  }

  /** Any later moment of 2024-01-01 leaves zero whole days to an exam on 2024-01-02: no review. */
  lemma ExamTomorrowLater(micros: int)
    requires 0 < micros < MicrosPerDay
    ensures ValidClock(Clock(Date(2024, 1, 1), micros))
    ensures ReviewKeyOf(Some(Date(2024, 1, 2)), Clock(Date(2024, 1, 1), micros), "Math") == Ok(None)
  {
    var clock: Moment := Clock(Date(2024, 1, 1), micros);
    DaysUntilFloor(Date(2024, 1, 2), clock);
  }

  /** At midnight of 2024-01-01 an exam on 2024-01-03 gets its review on 2024-01-01 itself. */
  lemma ExamInTwoDaysAtMidnight()
    ensures ReviewKeyOf(Some(Date(2024, 1, 3)), Clock(Date(2024, 1, 1), 0), "Math") == Ok(Some("2024-01-01"))
  {
    var clock: Moment := Clock(Date(2024, 1, 1), 0);
    OrdinalNextInMonth(Date(2024, 1, 1));
    OrdinalNextInMonth(Date(2024, 1, 2));
    DaysUntilFloor(Date(2024, 1, 3), clock);
    assert TwoDaysBefore(Date(2024, 1, 3)) == Some(Date(2024, 1, 1));
    TodayText();
  }

  /** One subject, "Math", with one weakness topic at an integer level, and an exam text. */
  function OneSubject(topic: string, level: int, exam: string): Request {
    Request(["Math"], [("Math", [(topic, Coercible(level))])], [("Math", ExamText(exam))])
  }

  /** A one-subject request's contribution: its one topic session and its review date, if any. */
  lemma OneSubjectContribution(topic: string, level: int, exam: string, e: Date, clock: Moment)
    requires exam != "" && ParseDate(exam) == Some(e)
    ensures Contribute(OneSubject(topic, level, exam), clock, "Math") ==
            match ReviewKeyOf(Some(e), clock, "Math")
            case Ok(k) => Ok(Contribution([Session("Math", topic, SessionLength(level))], k))
            case Err(x) => Err(x)
  {
    var req := OneSubject(topic, level, exam);
    assert WeaknessesOf(req, "Math") == [(topic, Coercible(level))];
    assert Get(req.exams, "Math") == Some(ExamText(exam));
    var topics: Dict<string, Level> := [(topic, Coercible(level))];
    TopicSessionsSpec("Math", topics);
    assert topics[0].1.Coercible?;
    assert TopicSessions("Math", topics).value == [Session("Math", topic, SessionLength(level))];
  }

  /** The run of a request with one subject is that subject's step on the empty plan. */
  lemma SingleSubject(req: Request, clock: Moment)
    requires |req.subjects| == 1
    ensures Generate(req, clock) == Step([], req, clock, req.subjects[0])
  {
    assert RunSteps(StepOf(req, clock), req.subjects, 0) == Ok([]);
    assert StepOf(req, clock)([], req.subjects[0]) == Step([], req, clock, req.subjects[0]);
  }

  /** The first subject's one topic session, on the empty plan, makes today's list. */
  lemma MergeFirst(clock: Moment, s: Session)
    ensures Put([], TodayKey(clock), MergeAll(ListAt([], TodayKey(clock)), [s])) == [(TodayKey(clock), [s])]
  {
    assert [s][..0] == [];
    assert MergeAll([], [s]) == [s];
  }

  /** With a review on another day, the first contribution makes a plan of two dates. */
  lemma ApplyFirst(clock: Moment, subject: string, s: Session, k: string)
    requires k != TodayKey(clock)
    ensures Apply([], clock, subject, Contribution([s], Some(k))) ==
            [(TodayKey(clock), [s]), (k, [ReviewSession(subject)])]
  {
    var p1: Plan := [(TodayKey(clock), [s])];
    MergeFirst(clock, s);
    assert IndexOf(p1[1..], k) == 0;
    assert ListAt(p1, k) == [];
    assert AddReview([], subject) == [ReviewSession(subject)];
  }

  /** Without a review, the first contribution makes today's list alone. */
  lemma ApplyFirstNoReview(clock: Moment, subject: string, s: Session)
    ensures Apply([], clock, subject, Contribution([s], None)) == [(TodayKey(clock), [s])]
  {
    MergeFirst(clock, s);
  }

  /**
    With its review due today, the first contribution's topic session named
    "Review" already holds the pair, so no review session is added.
  */
  lemma ApplyFirstReviewToday(clock: Moment, s: Session)
    requires s.topic == ReviewTopic
    ensures Apply([], clock, s.subject, Contribution([s], Some(TodayKey(clock)))) == [(TodayKey(clock), [s])]
  {
    var p1: Plan := [(TodayKey(clock), [s])];
    MergeFirst(clock, s);
    assert ListAt(p1, TodayKey(clock)) == [s];
    assert Pairs([s])[0] == (s.subject, ReviewTopic);
    assert AddReview([s], s.subject) == [s];
  }

  /**
    Lines 17-75 on the request {"Math": {"Algebra": 4}} with the exam on
    2024-01-02, run at midnight of 2024-01-01: the two-hour session today and
    the review on 2023-12-31.
  */
  lemma WorkedCaseAtMidnight()
    ensures Generate(OneSubject("Algebra", 4, "2024-01-02"), Clock(Date(2024, 1, 1), 0)) ==
            Ok([("2024-01-01", [Session("Math", "Algebra", "2h")]), ("2023-12-31", [Session("Math", "Review", "3h")])])
  {
    var clock: Moment := Clock(Date(2024, 1, 1), 0);
    ParseJan2();
    OneSubjectContribution("Algebra", 4, "2024-01-02", Date(2024, 1, 2), clock);
    ExamTomorrowAtMidnight();
    SingleSubject(OneSubject("Algebra", 4, "2024-01-02"), clock);
    TodayText();
    ApplyFirst(clock, "Math", Session("Math", "Algebra", "2h"), "2023-12-31");
  }

  /** The same request run at any later moment of 2024-01-01: the session today and no review at all. */
  lemma WorkedCaseLater(micros: int)
    requires 0 < micros < MicrosPerDay
    ensures ValidClock(Clock(Date(2024, 1, 1), micros))
    ensures Generate(OneSubject("Algebra", 4, "2024-01-02"), Clock(Date(2024, 1, 1), micros)) ==
            Ok([("2024-01-01", [Session("Math", "Algebra", "2h")])])
  {
    var clock: Moment := Clock(Date(2024, 1, 1), micros);
    ParseJan2();
    OneSubjectContribution("Algebra", 4, "2024-01-02", Date(2024, 1, 2), clock);
    ExamTomorrowLater(micros);
    SingleSubject(OneSubject("Algebra", 4, "2024-01-02"), clock);
    TodayText();
    ApplyFirstNoReview(clock, "Math", Session("Math", "Algebra", "2h"));
  }

  /**
    Lines 51-62 and 72-75 on the request {"Math": {"Review": 1}} with the exam on
    2024-01-03, run at midnight of 2024-01-01: the review date is today, where
    the one-hour "Review" topic session already holds the pair, so the plan has
    no three-hour review.
  */
  lemma ReviewTopicTakesThePlace()
    ensures Generate(OneSubject("Review", 1, "2024-01-03"), Clock(Date(2024, 1, 1), 0)) ==
            Ok([("2024-01-01", [Session("Math", "Review", "1h")])])
  {
    var clock: Moment := Clock(Date(2024, 1, 1), 0);
    ParseJan3();
    OneSubjectContribution("Review", 1, "2024-01-03", Date(2024, 1, 3), clock);
    ExamInTwoDaysAtMidnight();
    SingleSubject(OneSubject("Review", 1, "2024-01-03"), clock);
    TodayText();
    ApplyFirstReviewToday(clock, Session("Math", "Review", "1h"));
  }
}
