/**
  The generator's output as it reaches the backend's clean-up: the clean-up
  removes nothing from a plan the generator produced, as long as no subject
  name holds a colon.
*/
module Pipeline {
  import opened Wrappers
  import opened Dedup
  import opened Dicts
  import opened Json
  import opened PlanGenerator
  import opened PlanLists
  import opened PlanProperties
  import opened Cleanup

  /** The object the generator writes on success: the status text, then the plan. */
  function GeneratorOutput(plan: Plan): Envelope {
    [("status", OtherField(JString("success"))), ("plan", PlanField(plan))]
  }

  /** Distinct (subject, topic) pairs give distinct joined keys when no subject holds a colon. */
  lemma KeysFromPairs(list: seq<Session>)
    requires forall i :: 0 <= i < |list| ==> ':' !in list[i].subject
    requires Distinct(Pairs(list))
    ensures Distinct(KeysOf(list))
  {
    forall i, j | 0 <= i < j < |list|
      ensures KeysOf(list)[i] != KeysOf(list)[j]
    {
      KeyInjective(list[i], list[j]);
    }
  }

  /** Every date's list of a generated plan already has distinct keys, so clean-up keeps the plan. */
  lemma CleanupKeepsGenerated(req: Request, clock: Moment, plan: Plan)
    requires Generate(req, clock) == Ok(plan)
    requires forall j :: 0 <= j < |req.subjects| ==> ':' !in req.subjects[j]
    ensures CleanDates(plan) == plan
    ensures CleanEnvelope(GeneratorOutput(plan)) == Ok(GeneratorOutput(plan))
  {
    GenerateDates(req, clock, plan);
    GenerateUnique(req, clock, plan);
    forall i | 0 <= i < |plan|
      ensures Distinct(KeysOf(plan[i].1))
    {
      var list := plan[i].1;
      GetAt(plan, i);
      assert ListAt(plan, plan[i].0) == list;
      forall m | 0 <= m < |list|
        ensures ':' !in list[m].subject
      {
        PlanSound(req, clock, plan, plan[i].0, list[m]);
      }
      KeysFromPairs(list);
    }
    CleanDatesUnchanged(plan);
    var out := GeneratorOutput(plan);
    assert Get(out, "plan") == Some(PlanField(plan));
    assert Put(out, "plan", PlanField(plan)) == out;
  }
}
