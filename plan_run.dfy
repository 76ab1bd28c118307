/**
  The generator as the program runs it: a loop over the subjects whose body
  reads the subject's exam, turns its weaknesses into sessions, merges them into
  today's list and inserts the review, returning early with the first error.
  Each method is proved to compute the corresponding function of the plan
  generator, and the loop keeps every date's list free of repeated
  (subject, topic) pairs.
*/
module PlanRun {
  import opened Wrappers
  import opened Dedup
  import opened Dicts
  import opened Dates
  import opened PlanGenerator
  import opened PlanLists

  /** Lines 53-55: a linear search for the first session with the given (subject, topic). */
  method FindSession(list: seq<Session>, subject: string, topic: string) returns (i: nat)
    ensures i == FindPair(list, subject, topic)
  {
    i := 0;
    while i < |list| && !(list[i].subject == subject && list[i].topic == topic)
      invariant i <= |list|
      invariant forall j :: 0 <= j < i ==> (list[j].subject, list[j].topic) != (subject, topic)
    {
      i := i + 1;
    }
  }

  /** Line 74: whether some session of the list is the subject's review. */
  method HasReview(list: seq<Session>, subject: string) returns (found: bool)
    ensures found <==> (subject, ReviewTopic) in Pairs(list)
  {
    found := false;
    var i := 0;
    while i < |list| && !found
      invariant i <= |list|
      invariant found <==> exists j :: 0 <= j < i && (list[j].subject, list[j].topic) == (subject, ReviewTopic)
    {
      found := list[i].subject == subject && list[i].topic == ReviewTopic;
      i := i + 1;
    }
    assert forall j :: 0 <= j < |list| ==> Pairs(list)[j] == (list[j].subject, list[j].topic);
  }

  /** Lines 15-26 of the generator: the exam date of a subject, when its value is truthy. */
  method ReadExam(req: Request, subject: string) returns (r: Result<Option<Date>, GenError>)
    ensures r == ExamOf(req, subject)
  {
    r := Ok(None);
    var examValue := Get(req.exams, subject);
    if examValue.Some? {
      match examValue.value
      case ExamText(t) =>
        if t != "" {
          var parsed := ParseDate(t);
          if parsed.None? {
            return Err(ExamDateError(subject));
          }
          r := Ok(parsed);
        }
      case ExamOther(truthy) =>
        if truthy {
          return Err(ExamDateError(subject));
        }
    }
  }

  /** Lines 29-43: one session per weakness topic, aborting on the first level that is not an integer. */
  method BuildSessions(subject: string, topics: Dict<string, Level>) returns (r: Result<seq<Session>, GenError>)
    ensures r == TopicSessions(subject, topics)
  {
    var sessions: seq<Session> := [];
    var j := 0;
    while j < |topics|
      invariant j <= |topics|
      invariant TopicSessions(subject, topics[..j]) == Ok(sessions)
    {
      var (topic, level) := topics[j];
      assert topics[..j + 1][..j] == topics[..j];
      if level.NotCoercible? {
        assert TopicSessions(subject, topics[..j + 1]) == Err(LevelError(subject, topic));
        TopicSessionsPrefixError(subject, topics, j + 1);
        return Err(LevelError(subject, topic));
      }
      sessions := sessions + [Session(subject, topic, SessionLength(level.n))];
      j := j + 1;
    }
    assert topics[..j] == topics;
    r := Ok(sessions);
  }

  /** Lines 46-62: today's list is created when missing, then each session is merged into it. */
  method MergeToday(plan: Plan, today: string, sessions: seq<Session>) returns (plan': Plan)
    ensures plan' == Put(plan, today, MergeAll(ListAt(plan, today), sessions))
    ensures UniquePairs(plan) ==> UniquePairs(plan')
  {
    plan' := plan;
    if today !in Keys(plan') {
      plan' := Put(plan', today, []);
    }
    var list := ListAt(plan', today);
    assert list == ListAt(plan, today);
    var k := 0;
    while k < |sessions|
      invariant k <= |sessions|
      invariant list == MergeAll(ListAt(plan, today), sessions[..k])
      invariant Distinct(Pairs(ListAt(plan, today))) ==> Distinct(Pairs(list))
    {
      var s := sessions[k];
      if Distinct(Pairs(list)) {
        MergeSessionRule(list, s);
      }
      assert sessions[..k + 1][..k] == sessions[..k];
      var idx := FindSession(list, s.subject, s.topic);
      if idx < |list| {
        list := list[idx := list[idx].(duration := s.duration)];
      } else {
        list := list + [s];
      }
      k := k + 1;
    }
    assert sessions[..k] == sessions;
    PutPut(plan, today, [], list);
    plan' := Put(plan', today, list);
    if UniquePairs(plan) {
      PutUnique(plan, today, list);
    }
  }

  /** Lines 69-75: the review date's list is created when missing; the review goes last unless one is there. */
  method InsertReview(plan: Plan, key: string, subject: string) returns (plan': Plan)
    ensures plan' == Put(plan, key, AddReview(ListAt(plan, key), subject))
    ensures UniquePairs(plan) ==> UniquePairs(plan')
  {
    plan' := plan;
    if key !in Keys(plan') {
      plan' := Put(plan', key, []);
    }
    var reviews := ListAt(plan', key);
    assert reviews == ListAt(plan, key);
    var present := HasReview(reviews, subject);
    if !present {
      reviews := reviews + [Session(subject, ReviewTopic, ReviewDuration)];
    }
    PutPut(plan, key, [], reviews);
    plan' := Put(plan', key, reviews);
    if UniquePairs(plan) {
      AddReviewRule(ListAt(plan, key), subject);
      PutUnique(plan, key, reviews);
    }
  }

  /** Lines 65-68: the review date, when the exam lies ahead by a positive number of days. */
  method ReviewKey(exam: Option<Date>, clock: Moment, subject: string) returns (r: Result<Option<string>, GenError>)
    requires exam.Some? ==> ValidDate(exam.value)
    ensures r == ReviewKeyOf(exam, clock, subject)
  {
    r := Ok(None);
    if exam.Some? && DaysUntil(exam.value, clock) > 0 {
      var reviewDate := TwoDaysBefore(exam.value);
      if reviewDate.None? {
        return Err(ReviewDateError(subject));
      }
      r := Ok(Some(FormatDate(reviewDate.value)));
    }
  }

  /** A subject whose checks all pass adds its contribution to the plan. */
  lemma StepOk(plan: Plan, req: Request, clock: Moment, subject: string,
               exam: Option<Date>, sessions: seq<Session>, key: Option<string>)
    requires ExamOf(req, subject) == Ok(exam)
    requires TopicSessions(subject, WeaknessesOf(req, subject)) == Ok(sessions)
    requires ReviewKeyOf(exam, clock, subject) == Ok(key)
    ensures Step(plan, req, clock, subject) == Ok(Apply(plan, clock, subject, Contribution(sessions, key)))
  {
  }

  /** A subject that fails one of its checks makes the step fail with that check's error. */
  lemma StepError(plan: Plan, req: Request, clock: Moment, subject: string, e: GenError)
    requires Contribute(req, clock, subject) == Err(e)
    ensures Step(plan, req, clock, subject) == Err(e)
  {
  }

  /** The body of the generator's loop: one subject, or the error that aborts the run. */
  method ProcessSubject(plan: Plan, req: Request, clock: Moment, subject: string) returns (r: Result<Plan, GenError>)
    ensures r == Step(plan, req, clock, subject)
    ensures r.Ok? && UniquePairs(plan) ==> UniquePairs(r.value)
  {
    var exam := ReadExam(req, subject);
    if exam.Err? {
      StepError(plan, req, clock, subject, exam.error);
      return Err(exam.error);
    }
    var sessions := BuildSessions(subject, WeaknessesOf(req, subject));
    if sessions.Err? {
      StepError(plan, req, clock, subject, sessions.error);
      return Err(sessions.error);
    }
    var key := ReviewKey(exam.value, clock, subject);
    if key.Err? {
      StepError(plan, req, clock, subject, key.error);
      return Err(key.error);
    }
    var next := MergeToday(plan, FormatDate(clock.today), sessions.value);
    if key.value.Some? {
      next := InsertReview(next, key.value.value, subject);
    }
    StepOk(plan, req, clock, subject, exam.value, sessions.value, key.value);
    r := Ok(next);
  }

  /** One turn of the generator's loop: the plan after one more subject, or the run's error. */
  method Advance(plan: Plan, req: Request, clock: Moment, i: nat, ghost step: (Plan, string) -> Result<Plan, GenError>)
      returns (r: Result<Plan, GenError>)
    requires forall p: Plan, s: string {:trigger Step(p, req, clock, s)} :: step(p, s) == Step(p, req, clock, s)
    requires i < |req.subjects| && RunSteps(step, req.subjects, i) == Ok(plan)
    ensures r.Ok? ==> RunSteps(step, req.subjects, i + 1) == r
    ensures r.Err? ==> RunSteps(step, req.subjects, |req.subjects|) == r
    ensures r.Ok? && UniquePairs(plan) ==> UniquePairs(r.value)
  {
    r := ProcessSubject(plan, req, clock, req.subjects[i]);
    RunStepsNext(step, req.subjects, i, plan);
    if r.Err? {
      RunStepsError(step, req.subjects, i + 1, r.error);
    }
  }

  /** `generate_study_plan`, with the current moment passed in. */
  method GenerateStudyPlan(req: Request, clock: Moment) returns (r: Result<Plan, GenError>)
    ensures r == Generate(req, clock)
    ensures r.Ok? ==> UniquePairs(r.value)
  {
    r := RunLoop(req, clock, StepOf(req, clock));
  }

  /**
    The generator's loop over the subjects, stated for any `step` that agrees
    with `Step`: the plan after all of them, or the first error.
  */
  method RunLoop(req: Request, clock: Moment, ghost step: (Plan, string) -> Result<Plan, GenError>) returns (r: Result<Plan, GenError>)
    requires forall p: Plan, s: string {:trigger Step(p, req, clock, s)} :: step(p, s) == Step(p, req, clock, s)
    ensures r == RunSteps(step, req.subjects, |req.subjects|)
    ensures r.Ok? ==> UniquePairs(r.value)
  {
    var plan: Plan := [];
    var i := 0;
    while i < |req.subjects|
      invariant i <= |req.subjects|
      invariant RunSteps(step, req.subjects, i) == Ok(plan)
      invariant UniquePairs(plan)
    {
      var next := Advance(plan, req, clock, i, step);
      if next.Err? {
        return next;
      }
      plan := next.value;
      i := i + 1;
    }
    r := Ok(plan);
  }

  /** A topic whose level fails makes every longer prefix fail the same way. */
  lemma TopicSessionsPrefixError(subject: string, topics: Dict<string, Level>, n: nat)
    requires n <= |topics| && TopicSessions(subject, topics[..n]).Err?
    ensures TopicSessions(subject, topics) == TopicSessions(subject, topics[..n])
    decreases |topics| - n
  {
    if n < |topics| {
      assert topics[..n + 1][..n] == topics[..n];
      TopicSessionsPrefixError(subject, topics, n + 1);
    } else {
      assert topics[..n] == topics;
    }
  }
}
