/**
  The backend's clean-up of the generator's output (backend/app.py, lines
  128-142): under each date only the first session for each key
  `subject:topic` is kept, and the cleaned dates replace the `plan` field of the
  output. The key is one joined string, so two different (subject, topic) pairs
  whose joined keys coincide count as one session.
*/
module Cleanup {
  import opened Wrappers
  import opened Dedup
  import opened Dicts
  import opened Json
  import opened PlanGenerator

  /** The string a session is known by during clean-up. */
  function SessionKey(s: Session): string {
    s.subject + ":" + s.topic
  }

  /** The sessions' keys, in order. */
  function KeysOf(list: seq<Session>): seq<string> {
    KeysBy(list, SessionKey)
  }

  /** The list without every session whose key an earlier session already has. */
  function KeepFirst(list: seq<Session>): seq<Session> {
    KeepFirstBy(list, SessionKey)
  }

  /** Lines 131-138: one date's sessions, with the keys seen so far in a set. */
  method CleanSessions(sessions: seq<Session>) returns (cleaned: seq<Session>)
    ensures cleaned == KeepFirst(sessions)
  {
    cleaned := [];
    var seen: set<string> := {};
    var i := 0;
    while i < |sessions|
      invariant i <= |sessions|
      invariant cleaned == KeepFirst(sessions[..i])
      invariant forall x :: x in seen <==> x in KeysOf(cleaned)
    {
      var session := sessions[i];
      var key := session.subject + ":" + session.topic;
      assert key == SessionKey(session);
      assert sessions[..i + 1][..i] == sessions[..i];
      if key !in seen {
        seen := seen + {key};
        assert KeysOf(cleaned + [session]) == KeysOf(cleaned) + [key];
        cleaned := cleaned + [session];
      }
      i := i + 1;
    }
    assert sessions[..i] == sessions;
  }

  /**
    Lines 131-138: the cleaned list is the subsequence of the sessions that come
    first with their key, in their original order; it has each key of the list
    once; and cleaning it again changes nothing.
  */
  lemma KeepFirstFacts(list: seq<Session>)
    ensures var ps := FirstPositions(list, SessionKey, |list|);
              KeepFirst(list) == Select(list, ps) &&
              (forall m, m' :: 0 <= m < m' < |ps| ==> ps[m] < ps[m']) &&
              (forall i :: 0 <= i < |list| ==> (i in ps <==> FirstOfKey(list, SessionKey, i)))
    ensures Distinct(KeysOf(KeepFirst(list)))
    ensures forall k :: k in KeysOf(KeepFirst(list)) <==> k in KeysOf(list)
    ensures KeepFirst(KeepFirst(list)) == KeepFirst(list)
  {
    KeepFirstSpec(list, SessionKey);
    FirstPositionsFacts(list, SessionKey, |list|);
    KeepFirstKeys(list, SessionKey);
    forall k {
      KeepFirstHas(list, SessionKey, k);
    }
    KeepFirstIdempotent(list, SessionKey);
  }

  /**
    The joined key confuses subject "a:b" with topic "c" and subject "a" with
    topic "b:c": the second session is dropped although its pair differs.
  */
  lemma KeyCollision(d1: string, d2: string)
    ensures var s1, s2 := Session("a:b", "c", d1), Session("a", "b:c", d2);
              (s1.subject, s1.topic) != (s2.subject, s2.topic) && KeepFirst([s1, s2]) == [s1]
  {
    var s1, s2 := Session("a:b", "c", d1), Session("a", "b:c", d2);
    assert SessionKey(s1) == SessionKey(s2) by {
      assert SessionKey(s1) == ['a', ':', 'b', ':', 'c'];
      assert SessionKey(s2) == ['a', ':', 'b', ':', 'c'];
    }
    var one := KeepFirstBy([s1], SessionKey);
    assert one == [s1] by {
      assert [s1][..0] == [];
      assert KeepFirstBy([], SessionKey) == [];
      assert KeysBy([], SessionKey) == [];
    }
    assert KeysBy(one, SessionKey) == [SessionKey(s1)];
    assert [s1, s2][..1] == [s1];
    assert KeepFirstBy([s1, s2], SessionKey) == one;
  }

  /** The position of the first colon, or the length when there is none. */
  function ColonAt(k: string): (i: nat)
    ensures i <= |k|
  {
    if k == [] || k[0] == ':' then 0 else 1 + ColonAt(k[1..])
  }

  /** In a key whose subject has no colon, the first colon ends the subject. */
  lemma {:induction false} ColonAtKey(subject: string, topic: string)
    requires ':' !in subject
    ensures ColonAt(subject + ":" + topic) == |subject|
  {
    if subject != [] {
      assert (subject + ":" + topic)[1..] == subject[1..] + ":" + topic;
      ColonAtKey(subject[1..], topic);
    }
  }

  /** Without a colon in the subject, the joined key gives the subject and the topic back. */
  lemma KeyInjective(x: Session, y: Session)
    requires ':' !in x.subject && ':' !in y.subject
    ensures SessionKey(x) == SessionKey(y) <==> (x.subject, x.topic) == (y.subject, y.topic)
  {
    var kx, ky := SessionKey(x), SessionKey(y);
    if kx == ky {
      ColonAtKey(x.subject, x.topic);
      ColonAtKey(y.subject, y.topic);
      assert x.subject == kx[..|x.subject|] == ky[..|y.subject|] == y.subject;
      assert x.topic == kx[|x.subject| + 1..] == ky[|y.subject| + 1..] == y.topic;
    }
  }

  /** Each date in turn gets its cleaned list, assigned into a new dictionary. */
  function CleanDates(plan: Plan): Plan {
    MapValues(plan, KeepFirst)
  }

  /** Lines 129-140: the loop over the dates, in the plan's order. */
  method CleanPlanDates(plan: Plan) returns (cleaned: Plan)
    ensures cleaned == CleanDates(plan)
  {
    cleaned := [];
    var i := 0;
    while i < |plan|
      invariant i <= |plan|
      invariant cleaned == CleanDates(plan[..i])
    {
      var (date, sessions) := plan[i];
      assert plan[..i + 1][..i] == plan[..i];
      var cleanedSessions := CleanSessions(sessions);
      cleaned := Put(cleaned, date, cleanedSessions);
      i := i + 1;
    }
    assert plan[..i] == plan;
  }

  /**
    Lines 130 and 140: the cleaned plan has the same dates in the same order,
    dates with an empty list included, and each date's list is cleaned.
  */
  lemma CleanDatesLists(plan: Plan)
    requires DistinctKeys(plan)
    ensures Keys(CleanDates(plan)) == Keys(plan)
    ensures DistinctKeys(CleanDates(plan))
    ensures forall k :: Get(CleanDates(plan), k) == match Get(plan, k) case None => None case Some(list) => Some(KeepFirst(list))
  {
    MapValuesGet(plan, KeepFirst);
  }

  /** After clean-up, no date's list has two sessions with the same key. */
  lemma CleanDatesUnique(plan: Plan, k: string)
    requires DistinctKeys(plan)
    ensures Distinct(KeysOf(GetOr(CleanDates(plan), k, [])))
  {
    CleanDatesLists(plan);
    match Get(plan, k)
    case None =>
    case Some(list) =>
      KeepFirstKeys(list, SessionKey);
  }

  /** Cleaning a cleaned plan changes nothing. */
  lemma CleanDatesIdempotent(plan: Plan)
    requires DistinctKeys(plan)
    ensures CleanDates(CleanDates(plan)) == CleanDates(plan)
  {
    var c := CleanDates(plan);
    CleanDatesLists(plan);
    MapValuesSpec(plan, KeepFirst);
    MapValuesSpec(c, KeepFirst);
    forall i | 0 <= i < |c|
      ensures CleanDates(c)[i] == c[i]
    {
      KeepFirstIdempotent(plan[i].1, SessionKey);
    }
  }

  /** A plan whose lists have distinct keys already is left as it is. */
  lemma CleanDatesUnchanged(plan: Plan)
    requires DistinctKeys(plan)
    requires forall i :: 0 <= i < |plan| ==> Distinct(KeysOf(plan[i].1))
    ensures CleanDates(plan) == plan
  {
    MapValuesSpec(plan, KeepFirst);
    forall i | 0 <= i < |plan|
      ensures CleanDates(plan)[i] == plan[i]
    {
      KeepFirstDistinct(plan[i].1, SessionKey);
    }
  }

  /**
    A value of the generator's output: the `plan` field's dates, or any other
    JSON value (the `status` text, for one).
  */
  datatype Field = PlanField(dates: Plan) | OtherField(value: Json)

  /** The generator's output object, as the backend decodes it. */
  type Envelope = Dict<string, Field>

  /** A `plan` field that is not a dictionary of session lists makes the clean-up raise. */
  datatype CleanupError = MalformedPlan

  /** Lines 129-142: the `plan` field, or an empty one when it is missing, replaced by its cleaned dates. */
  function CleanEnvelope(env: Envelope): Result<Envelope, CleanupError> {
    var field: Option<Field> := Get(env, "plan");
    match field
    case None => Ok(Put(env, "plan", PlanField(CleanDates([]))))
    case Some(PlanField(dates)) => Ok(Put(env, "plan", PlanField(CleanDates(dates))))
    case Some(OtherField(_)) => Err(MalformedPlan)
  }

  /** Lines 128-142, on the decoded output of the generator. */
  method CleanUp(env: Envelope) returns (r: Result<Envelope, CleanupError>)
    ensures r == CleanEnvelope(env)
  {
    var dates: Plan := [];
    var field := Get(env, "plan");
    if field.Some? {
      if field.value.OtherField? {
        return Err(MalformedPlan);
      }
      dates := field.value.dates;
    }
    var cleaned := CleanPlanDates(dates);
    r := Ok(Put(env, "plan", PlanField(cleaned)));
  }

  /**
    Only the `plan` field changes: it becomes the cleaned dates, an empty
    dictionary when the field was missing, which is then appended last; every
    other field keeps its value and its place.
  */
  lemma CleanEnvelopeFields(env: Envelope)
    ensures CleanEnvelope(env).Ok? <==> !(Get(env, "plan").Some? && Get(env, "plan").value.OtherField?)
    ensures CleanEnvelope(env).Ok? ==>
              Keys(CleanEnvelope(env).value) == AppendNew(Keys(env), "plan") &&
              (forall k :: k != "plan" ==> Get(CleanEnvelope(env).value, k) == Get(env, k)) &&
              Get(CleanEnvelope(env).value, "plan") ==
                Some(PlanField(if Get(env, "plan").None? then [] else CleanDates(Get(env, "plan").value.dates)))
  {
    var field: Option<Field> := Get(env, "plan");
    match field
    case None =>
      PutKeys(env, "plan", PlanField([]));
      PutGet(env, "plan", PlanField([]));
    case Some(PlanField(dates)) =>
      PutKeys(env, "plan", PlanField(CleanDates(dates)));
      PutGet(env, "plan", PlanField(CleanDates(dates)));
    case Some(OtherField(_)) =>
  }

  /** Cleaning the output twice gives what cleaning it once gives. */
  lemma CleanEnvelopeIdempotent(env: Envelope)
    requires forall dates :: Get(env, "plan") == Some(PlanField(dates)) ==> DistinctKeys(dates)
    requires CleanEnvelope(env).Ok?
    ensures CleanEnvelope(CleanEnvelope(env).value) == CleanEnvelope(env)
  {
    var once := CleanEnvelope(env).value;
    CleanEnvelopeFields(env);
    var dates := if Get(env, "plan").None? then [] else Get(env, "plan").value.dates;
    CleanDatesIdempotent(dates);
    PutPut(env, "plan", PlanField(CleanDates(dates)), PlanField(CleanDates(CleanDates(dates))));
  }
}
