/**
  The study-plan generator. Subjects are processed in the order given. Each
  weakness topic of a subject becomes one session under today's date, merged into
  that day's list (a session with the same subject and topic takes the new
  duration where it stands, otherwise the session is appended). When the subject's
  exam lies ahead, a three-hour review session is put two days before the exam,
  unless that day already holds a review of the subject. A level that is not an
  integer or an exam date that does not parse aborts the whole run with one error.
*/
module PlanGenerator {
  import opened Wrappers
  import opened Dicts
  import opened Dates

  datatype Session = Session(subject: string, topic: string, duration: string)

  /** A weakness level as `int()` sees it: a value it converts, or one it rejects. */
  datatype Level = Coercible(n: int) | NotCoercible

  /**
    The value stored for a subject under `exams`: a string, or some other JSON
    value (null, a number, ...) of which only its truthiness matters.
  */
  datatype ExamValue = ExamText(text: string) | ExamOther(truthy: bool)

  /** The request; an absent `subjects`, `weaknesses` or `exams` field is empty. */
  datatype Request = Request(
    subjects: seq<string>,
    weaknesses: Dict<string, Dict<string, Level>>,
    exams: Dict<string, ExamValue>)

  const MicrosPerDay: int := 86_400_000_000

  /** The moment of generation: a date and the microseconds elapsed since its midnight. */
  datatype Clock = Clock(today: Date, micros: int)

  predicate ValidClock(c: Clock) {
    ValidDate(c.today) && 0 <= c.micros < MicrosPerDay
  }

  /** A moment Python's `datetime.now()` can return. */
  type Moment = c: Clock | ValidClock(c) witness Clock(Date(1, 1, 1), 0)

  /** Date text to the sessions of that day, in insertion order. */
  type Plan = Dict<string, seq<Session>>

  datatype GenError =
    | ExamDateError(subject: string)
    | LevelError(subject: string, topic: string)
    | ReviewDateError(subject: string)

  const ReviewTopic: string := "Review"
  const ReviewDuration: string := "3h"

  /** Harder topics get more time: two hours above level 3, one hour otherwise. */
  function SessionLength(level: int): (d: string)
    ensures d == "2h" <==> level > 3
    ensures d == "1h" <==> level <= 3
  {
    if level > 3 then "2h" else "1h"
  }

  /**
    The days field of the difference between the exam date and the current
    moment: the exam's midnight minus the current moment, in whole days rounded down (Python normalises a timedelta so that
    its seconds are never negative).
  */
  function DaysUntil(exam: Date, clock: Moment): int
    requires ValidDate(exam)
  {
    ((Ordinal(exam) - Ordinal(clock.today)) * MicrosPerDay - clock.micros) / MicrosPerDay
  }

  /** The day count is the difference of day numbers, one less unless it is exactly midnight. */
  lemma DaysUntilFloor(exam: Date, clock: Moment)
    requires ValidDate(exam)
    ensures DaysUntil(exam, clock) == Ordinal(exam) - Ordinal(clock.today) - (if clock.micros == 0 then 0 else 1)
  {
    var k := Ordinal(exam) - Ordinal(clock.today);
    var delta := k * MicrosPerDay - clock.micros;
    var q := delta / MicrosPerDay;
    var r := delta % MicrosPerDay;
    assert delta == q * MicrosPerDay + r && 0 <= r < MicrosPerDay;
    if clock.micros == 0 {
      assert (q - k) * MicrosPerDay == -r;
    } else {
      assert (q - k + 1) * MicrosPerDay == MicrosPerDay - clock.micros - r;
    }
  }

  function WeaknessesOf(req: Request, subject: string): Dict<string, Level> {
    GetOr(req.weaknesses, subject, [])
  }

  /**
    The subject's exam date: none when `exams` has no truthy value for it; an
    error when the value is truthy but not a date in `%Y-%m-%d` form.
  */
  function ExamOf(req: Request, subject: string): (r: Result<Option<Date>, GenError>)
    ensures r.Ok? && r.value.Some? ==> ValidDate(r.value.value)
  {
    var value: Option<ExamValue> := Get(req.exams, subject);
    match value
    case None => Ok(None)
    case Some(ExamText(t)) =>
      if t == "" then Ok(None)
      else
        (match ParseDate(t)
         case None => Err(ExamDateError(subject))
         case Some(e) => Ok(Some(e)))
    case Some(ExamOther(truthy)) =>
      if truthy then Err(ExamDateError(subject)) else Ok(None)
  }

  /**
    The sessions a subject's weakness topics ask for, in the topics' order; the
    first level that is not an integer aborts.
  */
  function TopicSessions(subject: string, topics: Dict<string, Level>): Result<seq<Session>, GenError> {
    if topics == [] then Ok([])
    else
      var last := topics[|topics| - 1];
      match TopicSessions(subject, topics[..|topics| - 1])
      case Err(e) => Err(e)
      case Ok(ss) =>
        if last.1.NotCoercible? then Err(LevelError(subject, last.0))
        else Ok(ss + [Session(subject, last.0, SessionLength(last.1.n))])
  }

  /**
    Lines 30-43: one session per topic, in the topics' order, with the length
    its level asks for; the run fails exactly when some level is not an
    integer, and then with the first such topic.
  */
  lemma {:induction false} TopicSessionsSpec(subject: string, topics: Dict<string, Level>)
    ensures TopicSessions(subject, topics).Ok? <==> forall j :: 0 <= j < |topics| ==> topics[j].1.Coercible?
    ensures TopicSessions(subject, topics).Ok? ==>
              |TopicSessions(subject, topics).value| == |topics| &&
              forall j :: 0 <= j < |topics| ==>
                TopicSessions(subject, topics).value[j] == Session(subject, topics[j].0, SessionLength(topics[j].1.n))
    ensures TopicSessions(subject, topics).Err? ==>
              exists j :: 0 <= j < |topics| && topics[j].1.NotCoercible? &&
                TopicSessions(subject, topics).error == LevelError(subject, topics[j].0) &&
                forall i :: 0 <= i < j ==> topics[i].1.Coercible?
    decreases |topics|
  {
    if topics != [] {
      var init := topics[..|topics| - 1];
      TopicSessionsSpec(subject, init);
      assert forall j :: 0 <= j < |init| ==> init[j] == topics[j];
    }
  }

  /**
    The date text of the subject's review session, when its exam lies ahead by a
    positive number of days; an error when two days before the exam falls before
    0001-01-01.
  */
  function ReviewKeyOf(exam: Option<Date>, clock: Moment, subject: string): Result<Option<string>, GenError>
    requires (exam.Some? ==> ValidDate(exam.value))
  {
    match exam
    case None => Ok(None)
    case Some(e) =>
      if DaysUntil(e, clock) > 0 then
        match TwoDaysBefore(e)
        case None => Err(ReviewDateError(subject))
        case Some(d) => Ok(Some(FormatDate(d)))
      else Ok(None)
  }

  /** What one subject adds: its topic sessions and, maybe, the date of its review. */
  datatype Contribution = Contribution(sessions: seq<Session>, reviewKey: Option<string>)

  /** One subject's contribution, or the error that aborts the run, checked in the source's order. */
  function Contribute(req: Request, clock: Moment, subject: string): Result<Contribution, GenError>
  {
    match ExamOf(req, subject)
    case Err(e) => Err(e)
    case Ok(exam) =>
      match TopicSessions(subject, WeaknessesOf(req, subject))
      case Err(e) => Err(e)
      case Ok(sessions) =>
        match ReviewKeyOf(exam, clock, subject)
        case Err(e) => Err(e)
        case Ok(key) => Ok(Contribution(sessions, key))
  }

  /** The (subject, topic) identity of each session. */
  function Pairs(list: seq<Session>): (ps: seq<(string, string)>)
    ensures |ps| == |list|
    ensures forall i :: 0 <= i < |list| ==> ps[i] == (list[i].subject, list[i].topic)
  {
    seq(|list|, i requires 0 <= i < |list| => (list[i].subject, list[i].topic))
  }

  /** Position of the first session for (subject, topic), or `|list|` when there is none. */
  function FindPair(list: seq<Session>, subject: string, topic: string): (i: nat)
    ensures i <= |list|
    ensures i < |list| ==> list[i].subject == subject && list[i].topic == topic
    ensures forall j :: 0 <= j < i ==> (list[j].subject, list[j].topic) != (subject, topic)
  {
    if list == [] then 0
    else if list[0].subject == subject && list[0].topic == topic then 0
    else 1 + FindPair(list[1..], subject, topic)
  }

  /** The search finds a session exactly when the pair occurs in the list. */
  lemma FindPairPresent(list: seq<Session>, subject: string, topic: string)
    ensures FindPair(list, subject, topic) < |list| <==> (subject, topic) in Pairs(list)
  {
    var i := FindPair(list, subject, topic);
    if (subject, topic) in Pairs(list) {
      var j :| 0 <= j < |list| && Pairs(list)[j] == (subject, topic);
      assert i <= j;
    }
  }

  /**
    A topic session merged into a day's list: an existing session for the same
    (subject, topic) takes the new duration where it stands; otherwise the
    session is appended.
  */
  function MergeSession(list: seq<Session>, s: Session): seq<Session> {
    var i := FindPair(list, s.subject, s.topic);
    if i < |list| then list[i := list[i].(duration := s.duration)] else list + [s]
  }

  /** The review session is added only when the day has no review of the subject yet. */
  function AddReview(list: seq<Session>, subject: string): seq<Session> {
    if (subject, ReviewTopic) in Pairs(list) then list
    else list + [Session(subject, ReviewTopic, ReviewDuration)]
  }

  /** The sessions merged one after the other. */
  function MergeAll(list: seq<Session>, sessions: seq<Session>): seq<Session> {
    if sessions == [] then list
    else MergeSession(MergeAll(list, sessions[..|sessions| - 1]), sessions[|sessions| - 1])
  }

  /** The key of today's list: the current date written as year-month-day. */
  function TodayKey(clock: Moment): string
  {
    FormatDate(clock.today)
  }

  /** The sessions under a date; none when the plan has no such date. */
  function ListAt(plan: Plan, key: string): seq<Session> {
    GetOr(plan, key, [])
  }

  /** The plan after one subject's contribution. */
  function Apply(plan: Plan, clock: Moment, subject: string, c: Contribution): Plan
  {
    var today := TodayKey(clock);
    var p1 := Put(plan, today, MergeAll(ListAt(plan, today), c.sessions));
    match c.reviewKey
    case None => p1
    case Some(k) => Put(p1, k, AddReview(ListAt(p1, k), subject))
  }

  /** One subject processed against the plan so far. */
  function Step(plan: Plan, req: Request, clock: Moment, subject: string): Result<Plan, GenError>
  {
    match Contribute(req, clock, subject)
    case Err(e) => Err(e)
    case Ok(c) => Ok(Apply(plan, clock, subject, c))
  }

  /** Runs `step` over the first `n` subjects in order, stopping at the first error. */
  function RunSteps(step: (Plan, string) -> Result<Plan, GenError>, subjects: seq<string>, n: nat): Result<Plan, GenError>
    requires n <= |subjects|
  {
    if n == 0 then Ok([])
    else
      match RunSteps(step, subjects, n - 1)
      case Err(e) => Err(e)
      case Ok(plan) => step(plan, subjects[n - 1])
  }

  /** One more subject runs one more step on the plan so far. */
  lemma RunStepsNext(step: (Plan, string) -> Result<Plan, GenError>, subjects: seq<string>, n: nat, plan: Plan)
    requires n < |subjects| && RunSteps(step, subjects, n) == Ok(plan)
    ensures RunSteps(step, subjects, n + 1) == step(plan, subjects[n])
  {
  }

  /** Once a run has failed, it ends in that error. */
  lemma {:induction false} RunStepsError(step: (Plan, string) -> Result<Plan, GenError>, subjects: seq<string>, n: nat, e: GenError)
    requires n <= |subjects| && RunSteps(step, subjects, n) == Err(e)
    ensures RunSteps(step, subjects, |subjects|) == Err(e)
    decreases |subjects| - n
  {
    if n < |subjects| {
      RunStepsError(step, subjects, n + 1, e);
    }
  }

  /** The generator's loop body, for a fixed request and moment. */
  function StepOf(req: Request, clock: Moment): (Plan, string) -> Result<Plan, GenError> {
    (plan: Plan, subject: string) => Step(plan, req, clock, subject)
  }

  /** The whole run: the plan, or the first error. */
  function Generate(req: Request, clock: Moment): Result<Plan, GenError>
  {
    RunSteps(StepOf(req, clock), req.subjects, |req.subjects|)
  }
}
