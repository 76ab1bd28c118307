/**
  The frontend's handling of a plan request and its answer
  (study-planner-frontend/pages/index.js): the weakness topics are trimmed
  before they are sent, and the plan that comes back is counted for the
  progress panel. JavaScript objects are modelled as dictionaries in insertion
  order, with an assignment to an existing key keeping its place.
*/
module Frontend {
  import opened Wrappers
  import opened Dedup
  import opened Dicts
  import opened JsText
  import opened PlanGenerator
  import opened Cleanup

  /** A subject's weak topics and the level typed for each. */
  type Topics = Dict<string, int>

  /** The weak topics of each subject. */
  type Weaknesses = Dict<string, Topics>

  /** Each topic assigned in turn, under its trimmed name, into a new object. */
  function TrimTopics(topics: Topics): Topics {
    Rekey(topics, Trim)
  }

  /** Every subject's topics trimmed, each assigned in turn into a new object. */
  function CleanWeaknesses(weaknesses: Weaknesses): Weaknesses {
    MapValues(weaknesses, TrimTopics)
  }

  /** Lines 43-57: `cleanupWeaknesses`, two nested loops filling fresh objects. */
  method CleanupWeaknesses(weaknesses: Weaknesses) returns (cleaned: Weaknesses)
    ensures cleaned == CleanWeaknesses(weaknesses)
  {
    cleaned := [];
    var i := 0;
    while i < |weaknesses|
      invariant i <= |weaknesses|
      invariant cleaned == CleanWeaknesses(weaknesses[..i])
    {
      var (subject, topics) := weaknesses[i];
      var cleanedTopics: Topics := [];
      var j := 0;
      while j < |topics|
        invariant j <= |topics|
        invariant cleanedTopics == TrimTopics(topics[..j])
      {
        var (topic, level) := topics[j];
        assert topics[..j + 1][..j] == topics[..j];
        assert TrimTopics(topics[..j + 1]) == Put(TrimTopics(topics[..j]), Trim(topic), level);
        cleanedTopics := Put(cleanedTopics, Trim(topic), level);
        j := j + 1;
      }
      assert topics[..j] == topics;
      assert weaknesses[..i + 1][..i] == weaknesses[..i];
      cleaned := Put(cleaned, subject, cleanedTopics);
      i := i + 1;
    }
    assert weaknesses[..i] == weaknesses;
  }

  /** The trimmed name of each topic, in order. */
  function TrimmedNames(topics: Topics): (names: seq<string>)
    ensures |names| == |topics|
    ensures forall i :: 0 <= i < |topics| ==> names[i] == Trim(topics[i].0)
  {
    KeysBy(Keys(topics), Trim)
  }

  /**
    Lines 48-52: each cleaned topic name is the trim of some topic name and has
    no whitespace at either end; every trimmed name appears once; and there are
    never more topics than before.
  */
  lemma TrimTopicsNames(topics: Topics)
    ensures forall k :: k in Keys(TrimTopics(topics)) <==> k in TrimmedNames(topics)
    ensures forall i :: 0 <= i < |TrimTopics(topics)| ==> IsTrimmed(TrimTopics(topics)[i].0)
    ensures DistinctKeys(TrimTopics(topics))
    ensures |TrimTopics(topics)| <= |topics|
  {
    var r := TrimTopics(topics);
    RekeyKeys(topics, Trim);
    FirstOccurrencesFacts(TrimmedNames(topics));
    forall i | 0 <= i < |r|
      ensures IsTrimmed(r[i].0)
    {
      assert r[i].0 == Keys(r)[i];
      assert r[i].0 in TrimmedNames(topics);
    }
    assert Distinct(Keys(r));
    assert forall i, j :: 0 <= i < j < |r| ==> Keys(r)[i] != Keys(r)[j];
    FirstOccurrencesShorter(TrimmedNames(topics));
  }

  /** The first occurrences of a sequence's elements are no more than its elements. */
  lemma {:induction false} FirstOccurrencesShorter<T>(xs: seq<T>)
    ensures |FirstOccurrences(xs)| <= |xs|
  {
    if xs != [] {
      FirstOccurrencesShorter(xs[..|xs| - 1]);
      FirstOccurrencesSnoc(xs[..|xs| - 1], xs[|xs| - 1]);
    }
  }

  /**
    Lines 48-52: a cleaned topic holds the level of the last topic that trims
    to its name, copied unchanged; a name no topic trims to is absent.
  */
  lemma TrimTopicsLastWins(topics: Topics, name: string)
    ensures var j := LastRenamed(topics, Trim, name);
              Get(TrimTopics(topics), name) == if j < 0 then None else Some(topics[j].1)
    ensures Get(TrimTopics(topics), name).None? <==> name !in TrimmedNames(topics)
  {
    RekeyGet(topics, Trim, name);
  }

  /** Lines 49-52: trimming the topics twice gives what trimming them once gives. */
  lemma TrimTopicsIdempotent(topics: Topics)
    ensures TrimTopics(TrimTopics(topics)) == TrimTopics(topics)
  {
    var r := TrimTopics(topics);
    TrimTopicsNames(topics);
    forall i | 0 <= i < |r|
      ensures Trim(r[i].0) == r[i].0
    {
      TrimTrimmed(r[i].0);
    }
    RekeyUnchanged(r, Trim);
  }

  /**
    Lines 47 and 53: the cleaned object has the same subjects, each holding its
    topics trimmed.
  */
  lemma CleanWeaknessesSubjects(weaknesses: Weaknesses)
    ensures forall s :: s in Keys(CleanWeaknesses(weaknesses)) <==> s in Keys(weaknesses)
    ensures DistinctKeys(weaknesses) ==>
              Keys(CleanWeaknesses(weaknesses)) == Keys(weaknesses) &&
              forall s :: Get(CleanWeaknesses(weaknesses), s) ==
                match Get(weaknesses, s) case None => None case Some(t) => Some(TrimTopics(t))
  {
    MapValuesKeys(weaknesses, TrimTopics);
    FirstOccurrencesFacts(Keys(weaknesses));
    if DistinctKeys(weaknesses) {
      MapValuesGet(weaknesses, TrimTopics);
    }
  }

  /** Lines 43-57: cleaning the weaknesses twice gives what cleaning them once gives. */
  lemma CleanWeaknessesIdempotent(weaknesses: Weaknesses)
    requires DistinctKeys(weaknesses)
    ensures CleanWeaknesses(CleanWeaknesses(weaknesses)) == CleanWeaknesses(weaknesses)
  {
    var c := CleanWeaknesses(weaknesses);
    MapValuesGet(weaknesses, TrimTopics);
    MapValuesSpec(weaknesses, TrimTopics);
    MapValuesSpec(c, TrimTopics);
    forall i | 0 <= i < |c|
      ensures CleanWeaknesses(c)[i] == c[i]
    {
      TrimTopicsIdempotent(weaknesses[i].1);
    }
  }

  /** The `reduce` over the plan's lists: their lengths added from the first date to the last. */
  function SessionCount(plan: Plan): nat {
    if plan == [] then 0 else SessionCount(plan[..|plan| - 1]) + |plan[|plan| - 1].1|
  }

  /** Every session of the plan, date after date. */
  function AllSessions(plan: Plan): seq<Session> {
    if plan == [] then [] else plan[0].1 + AllSessions(plan[1..])
  }

  /** Counting from the front and flattening from the back agree: the count is the number of sessions. */
  lemma {:induction false} SessionCountAll(plan: Plan)
    ensures SessionCount(plan) == |AllSessions(plan)|
    decreases |plan|
  {
    if plan != [] {
      var n := |plan| - 1;
      SessionCountAll(plan[..n]);
      AllSessionsSnoc(plan[..n], plan[n]);
      assert plan[..n] + [plan[n]] == plan;
    }
  }

  /** Appending a date appends its sessions. */
  lemma {:induction false} AllSessionsSnoc(plan: Plan, entry: (string, seq<Session>))
    ensures AllSessions(plan + [entry]) == AllSessions(plan) + entry.1
    decreases |plan|
  {
    if plan != [] {
      assert (plan + [entry])[1..] == plan[1..] + [entry];
      AllSessionsSnoc(plan[1..], entry);
    }
  }

  /** The progress figures shown with a fresh plan. */
  datatype ProgressStats = ProgressStats(total: nat, completed: nat, inProgress: nat, notStarted: nat)

  /**
    Lines 84-93: the total and the not-started count are both the number of
    sessions in the plan; nothing is completed or in progress yet.
  */
  function StatsOf(plan: Plan): (stats: ProgressStats)
    ensures stats.total == stats.notStarted == |AllSessions(plan)|
    ensures stats.completed == 0 && stats.inProgress == 0
  {
    SessionCountAll(plan);
    ProgressStats(SessionCount(plan), 0, 0, SessionCount(plan))
  }

  /** The backend's clean-up can only lower the count the frontend shows. */
  lemma {:induction false} CleanupCount(plan: Plan)
    requires DistinctKeys(plan)
    ensures SessionCount(CleanDates(plan)) <= SessionCount(plan)
  {
    MapValuesSpec(plan, KeepFirst);
    if plan != [] {
      var n := |plan| - 1;
      assert DistinctKeys(plan[..n]);
      CleanupCount(plan[..n]);
      MapValuesSpec(plan[..n], KeepFirst);
      assert CleanDates(plan)[..n] == CleanDates(plan[..n]);
      KeepFirstShorter(plan[n].1, SessionKey);
    }
  }
}
