/**
  What a successful run of the generator promises, stated on the request alone:
  which dates the plan holds, what each date's list holds, that no list repeats
  a (subject, topic), and when the run fails instead.
*/
module PlanProperties {
  import opened Wrappers
  import opened Dedup
  import opened Dicts
  import opened Dates
  import opened PlanGenerator
  import opened PlanLists
  import opened PlanBuild

  /**
    The subject's review goes to date `k`: it has an exam, the exam lies ahead by
    more than the current day (by two day numbers unless it is exactly
    midnight), and `k` is the text of the date two days before it.
  */
  predicate ReviewOn(req: Request, clock: Moment, subject: string, k: string) {
    match ExamOf(req, subject)
    case Ok(Some(e)) =>
      Ordinal(e) - Ordinal(clock.today) > (if clock.micros == 0 then 0 else 1) &&
      TwoDaysBefore(e).Some? && FormatDate(TwoDaysBefore(e).value) == k
    case _ => false
  }

  /** Session `x` is the one a weakness topic of its subject asks for. */
  predicate FromWeakness(req: Request, x: Session) {
    var topics := WeaknessesOf(req, x.subject);
    exists t :: 0 <= t < |topics| && topics[t].0 == x.topic && topics[t].1.Coercible? &&
      x.duration == SessionLength(topics[t].1.n)
  }

  /**
    Lines 19-22 and 65-75: there is a review date only for an exam that lies
    ahead by a positive number of whole days: by more than one day number, or
    by one when it is exactly midnight. Going back two days from the exam fails
    only for the exam 0001-01-02 seen at midnight of 0001-01-01.
  */
  lemma ReviewKeyOfSpec(exam: Option<Date>, clock: Moment, subject: string)
    requires exam.Some? ==> ValidDate(exam.value)
    ensures ReviewKeyOf(exam, clock, subject).Err? <==> exam == Some(Date(1, 1, 2)) && clock == Clock(Date(1, 1, 1), 0)
    ensures ReviewKeyOf(exam, clock, subject).Err? ==> ReviewKeyOf(exam, clock, subject).error == ReviewDateError(subject)
    ensures ReviewKeyOf(exam, clock, subject) == Ok(None) <==>
              exam.None? || Ordinal(exam.value) - Ordinal(clock.today) <= (if clock.micros == 0 then 0 else 1)
  {
    if exam.Some? {
      var e := exam.value;
      TwoDaysBeforeUndefined(e);
      ReviewOverflow(e, clock);
      DaysUntilFloor(e, clock);
    }
  }

  /** A positive day count to an exam on day number 2 or earlier needs the exam 0001-01-02 seen at midnight of 0001-01-01. */
  lemma ReviewOverflow(e: Date, clock: Moment)
    requires ValidDate(e)
    ensures DaysUntil(e, clock) > 0 && Ordinal(e) <= 2 <==> e == Date(1, 1, 2) && clock == Clock(Date(1, 1, 1), 0)
  {
    if DaysUntil(e, clock) > 0 && Ordinal(e) <= 2 {
      EarliestGate(e, clock);
      DayTwo(e);
      FirstMidnight(clock);
    }
    if e == Date(1, 1, 2) && clock == Clock(Date(1, 1, 1), 0) {
      DaysUntilFloor(e, clock);
    }
  }

  lemma EarliestGate(e: Date, clock: Moment)
    requires ValidDate(e) && DaysUntil(e, clock) > 0 && Ordinal(e) <= 2
    ensures Ordinal(clock.today) == 1 && clock.micros == 0 && Ordinal(e) == 2
  {
    DaysUntilFloor(e, clock);
    OrdinalPositive(clock.today);
  }

  lemma DayTwo(e: Date)
    requires ValidDate(e) && Ordinal(e) == 2
    ensures e == Date(1, 1, 2)
  {
    OrdinalPositive(e);
  }

  lemma FirstMidnight(clock: Moment)
    requires Ordinal(clock.today) == 1 && clock.micros == 0
    ensures clock == Clock(Date(1, 1, 1), 0)
  {
    OrdinalPositive(clock.today);
  }

  /**
    Lines 65-70: the review date is the date two days before the exam, written
    as text that reads back as that date, and it is never earlier than
    yesterday (today, unless it is exactly midnight).
  */
  lemma ReviewDateBound(exam: Option<Date>, clock: Moment, subject: string, k: string)
    requires exam.Some? ==> ValidDate(exam.value)
    requires ReviewKeyOf(exam, clock, subject) == Ok(Some(k))
    ensures exam.Some?
    ensures ParseDate(k).Some?
    ensures Ordinal(ParseDate(k).value) == Ordinal(exam.value) - 2
    ensures Ordinal(ParseDate(k).value) >= Ordinal(clock.today) - (if clock.micros == 0 then 1 else 0)
  {
    DaysUntilFloor(exam.value, clock);
    ParseFormat(TwoDaysBefore(exam.value).value);
  }

  /**
    Lines 17-26 and 28-43: a subject's contribution fails exactly when its exam
    value is truthy but not a date, when a level is not an integer, or when the
    review date falls before year 1; the checks run in that order, and a level
    error names the first such topic.
  */
  lemma ContributeOutcome(req: Request, clock: Moment, subject: string)
    ensures Contribute(req, clock, subject).Ok? <==>
              ExamOf(req, subject).Ok? &&
              (forall t :: 0 <= t < |WeaknessesOf(req, subject)| ==> WeaknessesOf(req, subject)[t].1.Coercible?) &&
              !(ExamOf(req, subject).value == Some(Date(1, 1, 2)) && clock == Clock(Date(1, 1, 1), 0))
    ensures ExamOf(req, subject).Err? ==> Contribute(req, clock, subject) == Err(ExamDateError(subject))
    ensures ExamOf(req, subject).Ok? && Contribute(req, clock, subject).Err? ==>
              (exists t :: 0 <= t < |WeaknessesOf(req, subject)| && WeaknessesOf(req, subject)[t].1.NotCoercible? &&
                 Contribute(req, clock, subject) == Err(LevelError(subject, WeaknessesOf(req, subject)[t].0)) &&
                 forall i :: 0 <= i < t ==> WeaknessesOf(req, subject)[i].1.Coercible?) ||
              Contribute(req, clock, subject) == Err(ReviewDateError(subject))
  {
    TopicSessionsSpec(subject, WeaknessesOf(req, subject));
    if ExamOf(req, subject).Ok? {
      ReviewKeyOfSpec(ExamOf(req, subject).value, clock, subject);
    }
  }

  /**
    A successful contribution holds one session per weakness topic, in the
    topics' order, with the length its level asks for, and the date of the
    subject's review exactly when there is one.
  */
  lemma ContributeSpec(req: Request, clock: Moment, subject: string, c: Contribution)
    requires Contribute(req, clock, subject) == Ok(c)
    ensures |c.sessions| == |WeaknessesOf(req, subject)|
    ensures forall t :: 0 <= t < |c.sessions| ==>
              WeaknessesOf(req, subject)[t].1.Coercible? &&
              c.sessions[t] == Session(subject, WeaknessesOf(req, subject)[t].0, SessionLength(WeaknessesOf(req, subject)[t].1.n))
    ensures forall k :: c.reviewKey == Some(k) <==> ReviewOn(req, clock, subject, k)
  {
    TopicSessionsSpec(subject, WeaknessesOf(req, subject));
    var exam := ExamOf(req, subject).value;
    if exam.Some? {
      DaysUntilFloor(exam.value, clock);
    }
  }

  /** A successful run is the plan every subject's contribution builds. */
  lemma GenerateBuild(req: Request, clock: Moment, plan: Plan)
    requires Generate(req, clock) == Ok(plan)
    ensures Contributions(req, clock).Ok?
    ensures plan == Build(clock, req.subjects, Contributions(req, clock).value)
  {
    GenerateTwoPhase(req, clock);
  }

  /** Under a successful run, each subject's contribution is the one the run applied. */
  lemma GenerateContribution(req: Request, clock: Moment, plan: Plan, j: nat)
    requires Generate(req, clock) == Ok(plan)
    requires j < |req.subjects|
    ensures Contributions(req, clock).Ok?
    ensures Contribute(req, clock, req.subjects[j]) == Ok(Contributions(req, clock).value[j])
  {
    GenerateBuild(req, clock, plan);
    ContributionAt(req, clock, j);
  }

  /** When every contribution succeeds, each subject's is its own. */
  lemma ContributionAt(req: Request, clock: Moment, j: nat)
    requires Contributions(req, clock).Ok?
    requires j < |req.subjects|
    ensures Contribute(req, clock, req.subjects[j]) == Ok(Contributions(req, clock).value[j])
  {
    ContributionsUpToSpec(ContributeOf(req, clock), req.subjects, |req.subjects|);
  }

  /**
    Lines 23-26, 40-43 and 92-95: the run succeeds exactly when every subject's
    contribution does; otherwise it yields no plan, only the error of the first
    subject that fails, however well-formed the others are.
  */
  lemma GenerateFailFast(req: Request, clock: Moment)
    ensures Generate(req, clock).Ok? <==>
              forall j :: 0 <= j < |req.subjects| ==> Contribute(req, clock, req.subjects[j]).Ok?
    ensures Generate(req, clock).Err? ==>
              exists j :: 0 <= j < |req.subjects| &&
                Contribute(req, clock, req.subjects[j]) == Err(Generate(req, clock).error) &&
                forall i :: 0 <= i < j ==> Contribute(req, clock, req.subjects[i]).Ok?
  {
    GenerateTwoPhase(req, clock);
    ContributionsUpToSpec(ContributeOf(req, clock), req.subjects, |req.subjects|);
  }

  /** The dates the contributions write to are today, once there is one, and their review dates. */
  lemma {:induction false} DateStreamMembers(today: string, cs: seq<Contribution>)
    ensures cs != [] ==> DateStream(today, cs) != [] && DateStream(today, cs)[0] == today
    ensures forall k :: k in DateStream(today, cs) <==>
              (cs != [] && k == today) || exists j :: 0 <= j < |cs| && cs[j].reviewKey == Some(k)
    decreases |cs|
  {
    if cs != [] {
      var n := |cs| - 1;
      DateStreamMembers(today, cs[..n]);
      assert forall j :: 0 <= j < n ==> cs[..n][j] == cs[j];
      forall k | exists j :: 0 <= j < |cs| && cs[j].reviewKey == Some(k)
        ensures k in DateStream(today, cs)
      {
        var j :| 0 <= j < |cs| && cs[j].reviewKey == Some(k);
        if j < n {
          assert cs[..n][j].reviewKey == Some(k);
        }
      }
    }
  }

  /**
    Lines 46-48 and 69-70: the plan holds each date once; today comes first as
    soon as there is a subject, and the other dates are the subjects' review
    dates. Without subjects the plan is empty.
  */
  lemma GenerateDates(req: Request, clock: Moment, plan: Plan)
    requires Generate(req, clock) == Ok(plan)
    ensures DistinctKeys(plan)
    ensures req.subjects == [] ==> plan == []
    ensures req.subjects != [] ==> plan != [] && plan[0].0 == TodayKey(clock)
    ensures forall k :: k in Keys(plan) <==>
              (req.subjects != [] && k == TodayKey(clock)) ||
              exists j :: 0 <= j < |req.subjects| && ReviewOn(req, clock, req.subjects[j], k)
  {
    GenerateBuild(req, clock, plan);
    var cs := Contributions(req, clock).value;
    var stream := DateStream(TodayKey(clock), cs);
    BuildKeys(clock, req.subjects, cs);
    FirstOccurrencesFacts(stream);
    DateStreamMembers(TodayKey(clock), cs);
    assert Distinct(Keys(plan));
    forall j | 0 <= j < |req.subjects|
      ensures forall k :: cs[j].reviewKey == Some(k) <==> ReviewOn(req, clock, req.subjects[j], k)
    {
      GenerateContribution(req, clock, plan, j);
      ContributeSpec(req, clock, req.subjects[j], cs[j]);
    }
    if req.subjects != [] {
      assert plan[0].0 == Keys(plan)[0];
    }
  }

  /** A contribution's topic sessions reach only today's list. */
  lemma ContributionEventsTopic(today: string, k: string, subject: string, c: Contribution, s: Session)
    ensures TopicEvent(s) in ContributionEvents(today, k, subject, c) <==> k == today && s in c.sessions
  {
    if k == today && s in c.sessions {
      var i :| 0 <= i < |c.sessions| && c.sessions[i] == s;
      assert ContributionEvents(today, k, subject, c)[i] == TopicEvent(s);
    }
  }

  /** A topic session reaches a date's list only when that date is today, from some subject's sessions. */
  lemma {:induction false} DayEventsTopic(today: string, k: string, subjects: seq<string>, cs: seq<Contribution>, s: Session)
    requires |cs| == |subjects|
    ensures TopicEvent(s) in DayEvents(today, k, subjects, cs) <==>
              k == today && exists j :: 0 <= j < |cs| && s in cs[j].sessions
    decreases |subjects|
  {
    if subjects != [] {
      var n := |subjects| - 1;
      var pre := DayEvents(today, k, subjects[..n], cs[..n]);
      var more := ContributionEvents(today, k, subjects[n], cs[n]);
      assert DayEvents(today, k, subjects, cs) == pre + more;
      DayEventsTopic(today, k, subjects[..n], cs[..n], s);
      ContributionEventsTopic(today, k, subjects[n], cs[n], s);
      if TopicEvent(s) in pre {
        var j :| 0 <= j < n && s in cs[..n][j].sessions;
        assert s in cs[j].sessions;
      } else if TopicEvent(s) !in more && k == today {
        forall j | 0 <= j < |cs|
          ensures s !in cs[j].sessions
        {
          if j < n {
            assert cs[..n][j] == cs[j];
          }
        }
      }
    }
  }

  /** A contribution's review reaches only its review date. */
  lemma ContributionEventsReview(today: string, k: string, subject: string, c: Contribution, subject': string)
    ensures ReviewEvent(subject') in ContributionEvents(today, k, subject, c) <==> subject' == subject && c.reviewKey == Some(k)
  {
    var ts: seq<Event> := if k == today then TopicEvents(c.sessions) else [];
    assert ReviewEvent(subject') !in ts;
  }

  /** A subject's review reaches a date's list only when that is the subject's review date. */
  lemma {:induction false} DayEventsReview(today: string, k: string, subjects: seq<string>, cs: seq<Contribution>, subject: string)
    requires |cs| == |subjects|
    ensures ReviewEvent(subject) in DayEvents(today, k, subjects, cs) <==>
              exists j :: 0 <= j < |cs| && subjects[j] == subject && cs[j].reviewKey == Some(k)
    decreases |subjects|
  {
    if subjects != [] {
      var n := |subjects| - 1;
      var pre := DayEvents(today, k, subjects[..n], cs[..n]);
      var more := ContributionEvents(today, k, subjects[n], cs[n]);
      assert DayEvents(today, k, subjects, cs) == pre + more;
      DayEventsReview(today, k, subjects[..n], cs[..n], subject);
      ContributionEventsReview(today, k, subjects[n], cs[n], subject);
      if ReviewEvent(subject) in pre {
        var j :| 0 <= j < n && subjects[..n][j] == subject && cs[..n][j].reviewKey == Some(k);
        assert subjects[j] == subject && cs[j].reviewKey == Some(k);
      } else if ReviewEvent(subject) !in more {
        forall j | 0 <= j < |cs|
          ensures !(subjects[j] == subject && cs[j].reviewKey == Some(k))
        {
          if j < n {
            assert subjects[..n][j] == subjects[j] && cs[..n][j] == cs[j];
          }
        }
      }
    }
  }

  /**
    Lines 28-62 and 65-75, the plan per date: each date's list is the described
    list of the events that reach that date, one session per (subject, topic) in
    the order the pairs first arrive.
  */
  lemma GenerateDay(req: Request, clock: Moment, plan: Plan, k: string)
    requires Generate(req, clock) == Ok(plan)
    ensures Contributions(req, clock).Ok?
    ensures ListAt(plan, k) == Expected(DayEvents(TodayKey(clock), k, req.subjects, Contributions(req, clock).value))
  {
    GenerateBuild(req, clock, plan);
    BuildDay(clock, req.subjects, Contributions(req, clock).value, k);
  }

  /**
    Lines 53-62 and 74-75: no date's list holds two sessions with the same
    (subject, topic), even when a subject is listed twice.
  */
  lemma GenerateUnique(req: Request, clock: Moment, plan: Plan)
    requires Generate(req, clock) == Ok(plan)
    ensures forall k :: Distinct(Pairs(ListAt(plan, k)))
  {
    GenerateBuild(req, clock, plan);
    forall k {
      BuildDay(clock, req.subjects, Contributions(req, clock).value, k);
    }
  }

  /** A topic session some subject contributed is one its weakness topics ask for. */
  lemma ContributedTopic(req: Request, clock: Moment, s: Session) returns (t: nat)
    requires Contributions(req, clock).Ok?
    requires exists j :: 0 <= j < |Contributions(req, clock).value| && s in Contributions(req, clock).value[j].sessions
    ensures t < |WeaknessesOf(req, s.subject)|
    ensures WeaknessesOf(req, s.subject)[t].1.Coercible?
    ensures s == Session(s.subject, WeaknessesOf(req, s.subject)[t].0, SessionLength(WeaknessesOf(req, s.subject)[t].1.n))
    ensures s.subject in req.subjects
  {
    var cs := Contributions(req, clock).value;
    var j :| 0 <= j < |cs| && s in cs[j].sessions;
    ContributionAt(req, clock, j);
    ContributeSpec(req, clock, req.subjects[j], cs[j]);
    t :| 0 <= t < |cs[j].sessions| && cs[j].sessions[t] == s;
  }

  /**
    Under a successful run, when the subject's topics are distinct, a topic
    session it contributed is the only session any subject contributes for its
    (subject, topic).
  */
  lemma TodayPairUnique(req: Request, clock: Moment, s: Session)
    requires Contributions(req, clock).Ok?
    requires DistinctKeys(WeaknessesOf(req, s.subject))
    requires exists j :: 0 <= j < |Contributions(req, clock).value| && s in Contributions(req, clock).value[j].sessions
    ensures var es := DayEvents(TodayKey(clock), TodayKey(clock), req.subjects, Contributions(req, clock).value);
            forall i :: 0 <= i < |es| && es[i].TopicEvent? && Pair(es[i].session) == Pair(s) ==> es[i].session == s
  {
    var today := TodayKey(clock);
    var cs := Contributions(req, clock).value;
    var es := DayEvents(today, today, req.subjects, cs);
    forall i | 0 <= i < |es| && es[i].TopicEvent? && Pair(es[i].session) == Pair(s)
      ensures es[i].session == s
    {
      DayEventsTopic(today, today, req.subjects, cs, es[i].session);
      SamePairSameTopic(req, clock, s, es[i].session);
    }
  }

  /** Two contributed topic sessions with the same (subject, topic) are equal when the subject's topics are distinct. */
  lemma SamePairSameTopic(req: Request, clock: Moment, s: Session, s': Session)
    requires Contributions(req, clock).Ok?
    requires DistinctKeys(WeaknessesOf(req, s.subject))
    requires exists j :: 0 <= j < |Contributions(req, clock).value| && s in Contributions(req, clock).value[j].sessions
    requires exists j :: 0 <= j < |Contributions(req, clock).value| && s' in Contributions(req, clock).value[j].sessions
    requires Pair(s) == Pair(s')
    ensures s == s'
  {
    var t := ContributedTopic(req, clock, s);
    var t' := ContributedTopic(req, clock, s');
  }

  /**
    Lines 28-34 and 46-62: every weakness topic of every subject has its session
    under today's date, with the length its level asks for (the topics of a
    subject being the keys of a JSON object, no two alike).
  */
  lemma TopicPlaced(req: Request, clock: Moment, plan: Plan, j: nat, t: nat)
    requires Generate(req, clock) == Ok(plan)
    requires j < |req.subjects|
    requires DistinctKeys(WeaknessesOf(req, req.subjects[j]))
    requires t < |WeaknessesOf(req, req.subjects[j])|
    ensures WeaknessesOf(req, req.subjects[j])[t].1.Coercible?
    ensures Session(req.subjects[j], WeaknessesOf(req, req.subjects[j])[t].0,
                    SessionLength(WeaknessesOf(req, req.subjects[j])[t].1.n))
            in ListAt(plan, TodayKey(clock))
  {
    var today := TodayKey(clock);
    GenerateDay(req, clock, plan, today);
    var cs := Contributions(req, clock).value;
    GenerateContribution(req, clock, plan, j);
    ContributeSpec(req, clock, req.subjects[j], cs[j]);
    var s := cs[j].sessions[t];
    DayEventsTopic(today, today, req.subjects, cs, s);
    TodayPairUnique(req, clock, s);
    ExpectedTopicUnique(DayEvents(today, today, req.subjects, cs), s);
  }

  /**
    Lines 65-75: a subject whose review date is `k` has its (subject, "Review")
    pair under `k`; that session is the three-hour review unless `k` is today
    and "Review" is also one of the subject's weakness topics, whose session
    then stands for the pair.
  */
  lemma ReviewPlaced(req: Request, clock: Moment, plan: Plan, j: nat, k: string)
    requires Generate(req, clock) == Ok(plan)
    requires j < |req.subjects| && ReviewOn(req, clock, req.subjects[j], k)
    ensures (req.subjects[j], ReviewTopic) in Pairs(ListAt(plan, k))
    ensures k != TodayKey(clock) || ReviewTopic !in Keys(WeaknessesOf(req, req.subjects[j])) ==>
              ReviewSession(req.subjects[j]) in ListAt(plan, k)
  {
    var subject := req.subjects[j];
    var today := TodayKey(clock);
    GenerateDay(req, clock, plan, k);
    var cs := Contributions(req, clock).value;
    GenerateContribution(req, clock, plan, j);
    ContributeSpec(req, clock, subject, cs[j]);
    var es := DayEvents(today, k, req.subjects, cs);
    var p := (subject, ReviewTopic);
    DayEventsReview(today, k, req.subjects, cs, subject);
    var i :| 0 <= i < |es| && es[i] == ReviewEvent(subject);
    assert EventPairs(es)[i] == p;
    ExpectedHas(es, p);
    LastTopicFacts(es, p);
    assert Pair(SessionFor(es, p)) == p;
    InPairs(ListAt(plan, k), SessionFor(es, p));
    if LastTopic(es, p).Some? {
      var s' := LastTopic(es, p).value;
      DayEventsTopic(today, k, req.subjects, cs, s');
      if k == today {
        var t' := ContributedTopic(req, clock, s');
        assert Keys(WeaknessesOf(req, subject))[t'] == ReviewTopic;
      }
    }
  }

  /**
    Every session of the plan belongs to a listed subject and is either, under
    today's date, the session one of its weakness topics asks for, or the
    subject's three-hour review under its review date: nothing else is ever
    added.
  */
  lemma PlanSound(req: Request, clock: Moment, plan: Plan, k: string, x: Session)
    requires Generate(req, clock) == Ok(plan)
    requires x in ListAt(plan, k)
    ensures x.subject in req.subjects
    ensures (k == TodayKey(clock) && FromWeakness(req, x)) ||
            (x == ReviewSession(x.subject) && ReviewOn(req, clock, x.subject, k))
  {
    var today := TodayKey(clock);
    GenerateDay(req, clock, plan, k);
    var cs := Contributions(req, clock).value;
    var es := DayEvents(today, k, req.subjects, cs);
    ExpectedFrom(es, x);
    if LastTopic(es, Pair(x)) == Some(x) {
      LastTopicFacts(es, Pair(x));
      DayEventsTopic(today, k, req.subjects, cs, x);
      var t := ContributedTopic(req, clock, x);
    } else {
      DayEventsReview(today, k, req.subjects, cs, x.subject);
      var j :| 0 <= j < |cs| && req.subjects[j] == x.subject && cs[j].reviewKey == Some(k);
      GenerateContribution(req, clock, plan, j);
      ContributeSpec(req, clock, req.subjects[j], cs[j]);
    }
  }
}
