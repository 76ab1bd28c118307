/**
  The plan a run builds, described in two phases: first every subject's
  contribution is checked (the run stops at the first subject that fails), then
  the contributions are applied in order. Which dates the plan holds, and what
  each date's list holds, follow from the contributions alone.
*/
module PlanBuild {
  import opened Wrappers
  import opened Dedup
  import opened Dicts
  import opened PlanGenerator
  import opened PlanLists

  /** The plan the subjects' contributions, applied in order, build from an empty plan. */
  function Build(clock: Moment, subjects: seq<string>, cs: seq<Contribution>): Plan
    requires |cs| == |subjects|
    decreases |subjects|
  {
    if subjects == [] then []
    else
      var n := |subjects| - 1;
      Apply(Build(clock, subjects[..n], cs[..n]), clock, subjects[n], cs[n])
  }

  /** The dates the contributions write to, in order: today, then the review date when there is one. */
  function DateStream(today: string, cs: seq<Contribution>): seq<string> {
    if cs == [] then []
    else
      var n := |cs| - 1;
      DateStream(today, cs[..n]) + [today] + (match cs[n].reviewKey case None => [] case Some(k) => [k])
  }

  /** What the contributions do, in order, to the list of date `k`. */
  function DayEvents(today: string, k: string, subjects: seq<string>, cs: seq<Contribution>): seq<Event>
    requires |cs| == |subjects|
    decreases |subjects|
  {
    if subjects == [] then []
    else
      var n := |subjects| - 1;
      DayEvents(today, k, subjects[..n], cs[..n]) + ContributionEvents(today, k, subjects[n], cs[n])
  }

  /** What one subject's contribution does to the list of date `k`: its topic sessions today, then its review. */
  function ContributionEvents(today: string, k: string, subject: string, c: Contribution): seq<Event> {
    (if k == today then TopicEvents(c.sessions) else [])
    + (if c.reviewKey == Some(k) then [ReviewEvent(subject)] else [])
  }

  /** One more contribution adds today and then its review date to the dates' first occurrences. */
  lemma ApplyKeys(plan: Plan, clock: Moment, subject: string, c: Contribution, stream: seq<string>)
    requires Keys(plan) == FirstOccurrences(stream)
    ensures Keys(Apply(plan, clock, subject, c))
         == FirstOccurrences(stream + [TodayKey(clock)] + (match c.reviewKey case None => [] case Some(k) => [k]))
  {
    var today := TodayKey(clock);
    var p1 := Put(plan, today, MergeAll(ListAt(plan, today), c.sessions));
    PutKeys(plan, today, MergeAll(ListAt(plan, today), c.sessions));
    FirstOccurrencesSnoc(stream, today);
    match c.reviewKey
    case None =>
      assert stream + [today] + [] == stream + [today];
    case Some(k) =>
      PutKeys(p1, k, AddReview(ListAt(p1, k), subject));
      FirstOccurrencesSnoc(stream + [today], k);
  }

  /**
    Lines 46-48 and 69-70: the plan's dates are the dates the contributions
    write to, each once, in the order they are first written.
  */
  lemma {:induction false} BuildKeys(clock: Moment, subjects: seq<string>, cs: seq<Contribution>)
    requires |cs| == |subjects|
    ensures Keys(Build(clock, subjects, cs)) == FirstOccurrences(DateStream(TodayKey(clock), cs))
    decreases |subjects|
  {
    if subjects != [] {
      var n := |subjects| - 1;
      BuildKeys(clock, subjects[..n], cs[..n]);
      ApplyKeys(Build(clock, subjects[..n], cs[..n]), clock, subjects[n], cs[n], DateStream(TodayKey(clock), cs[..n]));
    }
  }

  /** One more contribution performs its events on each date's list. */
  lemma ApplyList(plan: Plan, clock: Moment, subject: string, c: Contribution, k: string)
    ensures ListAt(Apply(plan, clock, subject, c), k) == PerformAll(ListAt(plan, k), ContributionEvents(TodayKey(clock), k, subject, c))
  {
    var today := TodayKey(clock);
    var p1 := Put(plan, today, MergeAll(ListAt(plan, today), c.sessions));
    PutGet(plan, today, MergeAll(ListAt(plan, today), c.sessions));
    var ts: seq<Event> := if k == today then TopicEvents(c.sessions) else [];
    var rs: seq<Event> := if c.reviewKey == Some(k) then [ReviewEvent(subject)] else [];
    assert ContributionEvents(today, k, subject, c) == ts + rs;
    PerformAllConcat(ListAt(plan, k), ts, rs);
    assert ListAt(p1, k) == PerformAll(ListAt(plan, k), ts) by {
      if k == today {
        MergeAllEvents(ListAt(plan, today), c.sessions);
      }
    }
    match c.reviewKey
    case None =>
      assert Apply(plan, clock, subject, c) == p1;
    case Some(rk) =>
      assert Apply(plan, clock, subject, c) == Put(p1, rk, AddReview(ListAt(p1, rk), subject));
      PutGet(p1, rk, AddReview(ListAt(p1, rk), subject));
      if rk == k {
        assert PerformAll(ListAt(p1, k), rs) == AddReview(ListAt(p1, k), subject) by {
          assert rs[..0] == [];
        }
      }
  }

  /** Each date's list is what the contributions' events, performed in order on an empty list, leave. */
  lemma {:induction false} BuildLists(clock: Moment, subjects: seq<string>, cs: seq<Contribution>, k: string)
    requires |cs| == |subjects|
    ensures ListAt(Build(clock, subjects, cs), k) == PerformAll([], DayEvents(TodayKey(clock), k, subjects, cs))
    decreases |subjects|
  {
    if subjects != [] {
      var n := |subjects| - 1;
      var today := TodayKey(clock);
      var prev := Build(clock, subjects[..n], cs[..n]);
      var es := DayEvents(today, k, subjects[..n], cs[..n]);
      var more := ContributionEvents(today, k, subjects[n], cs[n]);
      BuildLists(clock, subjects[..n], cs[..n], k);
      ApplyList(prev, clock, subjects[n], cs[n], k);
      PerformAllConcat([], es, more);
    }
  }

  /**
    Each date's list, stated outright: one session per (subject, topic), in the
    order the pairs first reach that date; a pair some topic session has carries
    the last such session (its duration is the last one merged), any other pair
    is the subject's three-hour review.
  */
  lemma BuildDay(clock: Moment, subjects: seq<string>, cs: seq<Contribution>, k: string)
    requires |cs| == |subjects|
    ensures ListAt(Build(clock, subjects, cs), k) == Expected(DayEvents(TodayKey(clock), k, subjects, cs))
    ensures Distinct(Pairs(ListAt(Build(clock, subjects, cs), k)))
  {
    BuildLists(clock, subjects, cs, k);
    PerformAllExpected(DayEvents(TodayKey(clock), k, subjects, cs));
    ExpectedPairs(DayEvents(TodayKey(clock), k, subjects, cs));
  }

  /** The first `n` subjects' contributions, or the first error among them. */
  function ContributionsUpTo(contribute: string -> Result<Contribution, GenError>, subjects: seq<string>, n: nat)
      : (r: Result<seq<Contribution>, GenError>)
    requires n <= |subjects|
    ensures r.Ok? ==> |r.value| == n
  {
    if n == 0 then Ok([])
    else
      match ContributionsUpTo(contribute, subjects, n - 1)
      case Err(e) => Err(e)
      case Ok(cs) =>
        match contribute(subjects[n - 1])
        case Err(e) => Err(e)
        case Ok(c) => Ok(cs + [c])
  }

  /** A subject's contribution, for a fixed request and moment. */
  function ContributeOf(req: Request, clock: Moment): string -> Result<Contribution, GenError> {
    (subject: string) => Contribute(req, clock, subject)
  }

  /** Every subject's contribution, or the first error. */
  function Contributions(req: Request, clock: Moment): (r: Result<seq<Contribution>, GenError>)
    ensures r.Ok? ==> |r.value| == |req.subjects|
  {
    ContributionsUpTo(ContributeOf(req, clock), req.subjects, |req.subjects|)
  }

  /** The second phase: the error of the first, or the plan the contributions build. */
  function BuildOutcome(clock: Moment, subjects: seq<string>, r: Result<seq<Contribution>, GenError>): Result<Plan, GenError>
    requires r.Ok? ==> |r.value| == |subjects|
  {
    match r
    case Err(e) => Err(e)
    case Ok(cs) => Ok(Build(clock, subjects, cs))
  }

  /**
    The contributions succeed exactly when every subject's does, and then hold
    them in order; otherwise the error is that of the first subject that fails.
  */
  lemma {:induction false} ContributionsUpToSpec(contribute: string -> Result<Contribution, GenError>, subjects: seq<string>, n: nat)
    requires n <= |subjects|
    ensures ContributionsUpTo(contribute, subjects, n).Ok? <==> forall j :: 0 <= j < n ==> contribute(subjects[j]).Ok?
    ensures ContributionsUpTo(contribute, subjects, n).Ok? ==>
              forall j :: 0 <= j < n ==> ContributionsUpTo(contribute, subjects, n).value[j] == contribute(subjects[j]).value
    ensures ContributionsUpTo(contribute, subjects, n).Err? ==>
              exists j :: 0 <= j < n && contribute(subjects[j]) == Err(ContributionsUpTo(contribute, subjects, n).error) &&
                forall i :: 0 <= i < j ==> contribute(subjects[i]).Ok?
  {
    if n > 0 {
      ContributionsUpToSpec(contribute, subjects, n - 1);
    }
  }

  /** A step that applies the subject's contribution, or fails with its error. */
  function ApplyContribution(contribute: string -> Result<Contribution, GenError>, clock: Moment, plan: Plan, subject: string)
      : Result<Plan, GenError>
  {
    match contribute(subject)
    case Err(e) => Err(e)
    case Ok(c) => Ok(Apply(plan, clock, subject, c))
  }

  /**
    A run whose every step applies the subject's contribution, or fails with
    its error, is the two phases: it fails with the contributions' error, and
    otherwise yields the plan the contributions build.
  */
  lemma {:induction false} RunStepsTwoPhase(step: (Plan, string) -> Result<Plan, GenError>,
                                            contribute: string -> Result<Contribution, GenError>,
                                            clock: Moment, subjects: seq<string>, n: nat)
    requires forall p: Plan, s: string {:trigger ApplyContribution(contribute, clock, p, s)} ::
               step(p, s) == ApplyContribution(contribute, clock, p, s)
    requires n <= |subjects|
    ensures RunSteps(step, subjects, n) == BuildOutcome(clock, subjects[..n], ContributionsUpTo(contribute, subjects, n))
  {
    if n > 0 {
      RunStepsTwoPhase(step, contribute, clock, subjects, n - 1);
      var subject := subjects[n - 1];
      match ContributionsUpTo(contribute, subjects, n - 1)
      case Err(e) =>
      case Ok(cs) =>
        var plan := Build(clock, subjects[..n - 1], cs);
        assert RunSteps(step, subjects, n) == step(plan, subject) == ApplyContribution(contribute, clock, plan, subject);
        if contribute(subject).Ok? {
          assert subjects[..n] == subjects[..n - 1] + [subject];
          BuildSnoc(clock, subjects[..n - 1], cs, subject, contribute(subject).value);
        }
    }
  }

  /** One more subject applies its contribution to the plan the others build. */
  lemma BuildSnoc(clock: Moment, subjects: seq<string>, cs: seq<Contribution>, subject: string, c: Contribution)
    requires |cs| == |subjects|
    ensures Build(clock, subjects + [subject], cs + [c]) == Apply(Build(clock, subjects, cs), clock, subject, c)
  {
    assert (subjects + [subject])[..|subjects|] == subjects;
    assert (cs + [c])[..|cs|] == cs;
  }

  /** The whole run, in two phases. */
  lemma GenerateTwoPhase(req: Request, clock: Moment)
    ensures Generate(req, clock) == BuildOutcome(clock, req.subjects, Contributions(req, clock))
  {
    RunStepsTwoPhase(StepOf(req, clock), ContributeOf(req, clock), clock, req.subjects, |req.subjects|);
    assert req.subjects[..|req.subjects|] == req.subjects;
  }
}
