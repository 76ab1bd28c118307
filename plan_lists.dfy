/**
  The two ways a session enters a day's list, and what each does to the list's
  (subject, topic) pairs: a topic session overwrites the duration of the
  session with its pair where that session stands, or is appended; a review
  session is appended only when its pair is absent and never overwrites.
*/
module PlanLists {
  import opened Wrappers
  import opened Dedup
  import opened Dicts
  import opened PlanGenerator

  function Pair(x: Session): (string, string) {
    (x.subject, x.topic)
  }

  /** The review session of a subject, as line 73 of the generator builds it. */
  function ReviewSession(subject: string): Session {
    Session(subject, ReviewTopic, ReviewDuration)
  }

  /** No date's list holds two sessions for the same (subject, topic). */
  ghost predicate UniquePairs(plan: Plan) {
    forall k :: Distinct(Pairs(ListAt(plan, k)))
  }

  /** Storing a list without repeated pairs keeps every list free of them. */
  lemma PutUnique(plan: Plan, key: string, list: seq<Session>)
    requires UniquePairs(plan) && Distinct(Pairs(list))
    ensures UniquePairs(Put(plan, key, list))
  {
    PutGet(plan, key, list);
    forall k
      ensures Distinct(Pairs(ListAt(Put(plan, key, list), k)))
    {
      if k != key {
        assert ListAt(Put(plan, key, list), k) == ListAt(plan, k);
      }
    }
  }

  lemma PairsAppend(list: seq<Session>, x: Session)
    ensures Pairs(list + [x]) == Pairs(list) + [Pair(x)]
  {
  }

  lemma PairsConcat(xs: seq<Session>, ys: seq<Session>)
    ensures Pairs(xs + ys) == Pairs(xs) + Pairs(ys)
  {
  }

  /** A position holds a pair exactly when the session there has it. */
  lemma InPairs(list: seq<Session>, x: Session)
    requires x in list
    ensures Pair(x) in Pairs(list)
  {
    var i :| 0 <= i < |list| && list[i] == x;
    assert Pairs(list)[i] == Pair(x);
  }

  /** In a list without repeated pairs, the session for a pair is the one at its first position. */
  lemma SamePairSameSession(list: seq<Session>, i: nat, j: nat)
    requires Distinct(Pairs(list)) && i < |list| && j < |list|
    ensures Pair(list[i]) == Pair(list[j]) ==> i == j
  {
    assert Pairs(list)[i] == Pair(list[i]) && Pairs(list)[j] == Pair(list[j]);
  }

  /**
    Lines 51-62: merging a topic session offers its pair to the list's pairs. The
    session now holding that pair is the merged one (the duration is the new
    one and the position, if the pair was there, is unchanged); every other
    position keeps its session.
  */
  lemma MergeSessionRule(list: seq<Session>, s: Session)
    requires Distinct(Pairs(list))
    ensures Pairs(MergeSession(list, s)) == AppendNew(Pairs(list), Pair(s))
    ensures forall j :: 0 <= j < |MergeSession(list, s)| ==>
              MergeSession(list, s)[j] == if Pair(MergeSession(list, s)[j]) == Pair(s) then s else list[j]
  {
    FindPairPresent(list, s.subject, s.topic);
    var i := FindPair(list, s.subject, s.topic);
    var r := MergeSession(list, s);
    if i < |list| {
      assert Pairs(r) == Pairs(list);
      forall j | 0 <= j < |r| && j != i
        ensures r[j] == list[j] && Pair(r[j]) != Pair(s)
      {
        SamePairSameSession(list, i, j);
      }
    } else {
      PairsAppend(list, s);
    }
  }

  /** Every session after a merge was in the list before or is the merged session. */
  lemma MergeSessionFrom(list: seq<Session>, s: Session, x: Session)
    requires x in MergeSession(list, s)
    ensures x in list || x == s
  {
    var i := FindPair(list, s.subject, s.topic);
    if i < |list| {
      var r := MergeSession(list, s);
      var j :| 0 <= j < |r| && r[j] == x;
      if j != i {
        assert x == list[j];
      }
    }
  }

  /** The merged session is in the list afterwards, and so is every session with another pair. */
  lemma MergeSessionKeeps(list: seq<Session>, s: Session)
    ensures s in MergeSession(list, s)
    ensures forall x :: x in list && Pair(x) != Pair(s) ==> x in MergeSession(list, s)
  {
    var i := FindPair(list, s.subject, s.topic);
    if i < |list| {
      var r := MergeSession(list, s);
      assert r[i] == s;
      forall x | x in list && Pair(x) != Pair(s)
        ensures x in r
      {
        var j :| 0 <= j < |list| && list[j] == x;
        assert r[j] == x;
      }
    }
  }

  /**
    Lines 74-75: a review is offered to the list's pairs; when the subject
    already has a review there, the list is left exactly as it is.
  */
  lemma AddReviewRule(list: seq<Session>, subject: string)
    ensures Pairs(AddReview(list, subject)) == AppendNew(Pairs(list), (subject, ReviewTopic))
    ensures (subject, ReviewTopic) in Pairs(list) ==> AddReview(list, subject) == list
    ensures (subject, ReviewTopic) !in Pairs(list) ==> AddReview(list, subject) == list + [ReviewSession(subject)]
  {
    if (subject, ReviewTopic) !in Pairs(list) {
      PairsAppend(list, ReviewSession(subject));
    }
  }

  /** A second review insertion for the same subject changes nothing. */
  lemma AddReviewIdempotent(list: seq<Session>, subject: string)
    ensures AddReview(AddReview(list, subject), subject) == AddReview(list, subject)
  {
    AddReviewRule(list, subject);
    AddReviewRule(AddReview(list, subject), subject);
  }

  /** Merging a batch offers each of its pairs in turn. */
  lemma {:induction false} MergeAllPairs(list: seq<Session>, ss: seq<Session>)
    requires Distinct(Pairs(list))
    ensures Pairs(MergeAll(list, ss)) == AppendAll(Pairs(list), Pairs(ss))
    ensures Distinct(Pairs(MergeAll(list, ss)))
    decreases |ss|
  {
    if ss != [] {
      var init := ss[..|ss| - 1];
      var last := ss[|ss| - 1];
      MergeAllPairs(list, init);
      MergeSessionRule(MergeAll(list, init), last);
      assert ss == init + [last];
      PairsAppend(init, last);
      assert Pairs(ss)[..|Pairs(ss)| - 1] == Pairs(init);
    }
  }

  /** Every session after a batch merge was in the list or in the batch. */
  lemma {:induction false} MergeAllFrom(list: seq<Session>, ss: seq<Session>, x: Session)
    requires x in MergeAll(list, ss)
    ensures x in list || x in ss
    decreases |ss|
  {
    if ss != [] {
      var init := ss[..|ss| - 1];
      MergeSessionFrom(MergeAll(list, init), ss[|ss| - 1], x);
      if x in MergeAll(list, init) {
        MergeAllFrom(list, init, x);
      }
      assert ss == init + [ss[|ss| - 1]];
    }
  }

  /** When the batch has no repeated pair, every session of the batch is in the merged list. */
  lemma {:induction false} MergeAllPlaces(list: seq<Session>, ss: seq<Session>, x: Session)
    requires Distinct(Pairs(ss)) && x in ss
    ensures x in MergeAll(list, ss)
    decreases |ss|
  {
    var init := ss[..|ss| - 1];
    var last := ss[|ss| - 1];
    MergeSessionKeeps(MergeAll(list, init), last);
    if x != last {
      assert x in init;
      assert Pairs(init) == Pairs(ss)[..|ss| - 1];
      MergeAllPlaces(list, init, x);
      var i :| 0 <= i < |init| && init[i] == x;
      SamePairSameSession(ss, i, |ss| - 1);
    }
  }

  /** A batch merge keeps every session whose pair the batch does not touch. */
  lemma {:induction false} MergeAllKeeps(list: seq<Session>, ss: seq<Session>, x: Session)
    requires x in list && Pair(x) !in Pairs(ss)
    ensures x in MergeAll(list, ss)
    decreases |ss|
  {
    if ss != [] {
      var init := ss[..|ss| - 1];
      var last := ss[|ss| - 1];
      assert Pairs(ss) == Pairs(init) + [Pair(last)];
      MergeAllKeeps(list, init, x);
      MergeSessionKeeps(MergeAll(list, init), last);
    }
  }

  /**
    The merge rule of lines 53-59: merging two sessions for the same subject and topic
    leaves one session for that pair, carrying the later duration.
  */
  lemma MergeTwiceLastWins(list: seq<Session>, subject: string, topic: string, d1: string, d2: string)
    requires Distinct(Pairs(list))
    ensures var r := MergeSession(MergeSession(list, Session(subject, topic, d1)), Session(subject, topic, d2));
            Distinct(Pairs(r)) && Session(subject, topic, d2) in r && (d1 != d2 ==> Session(subject, topic, d1) !in r)
  {
    var s1 := Session(subject, topic, d1);
    var s2 := Session(subject, topic, d2);
    MergeSessionRule(list, s1);
    var l1 := MergeSession(list, s1);
    MergeSessionRule(l1, s2);
    MergeSessionKeeps(l1, s2);
  }

  /** What can happen to one day's list: a topic session is merged, or a subject's review is offered. */
  datatype Event = TopicEvent(session: Session) | ReviewEvent(subject: string)

  function EventPair(e: Event): (string, string) {
    match e
    case TopicEvent(s) => Pair(s)
    case ReviewEvent(subject) => (subject, ReviewTopic)
  }

  function EventPairs(es: seq<Event>): (ps: seq<(string, string)>)
    ensures |ps| == |es|
    ensures forall i :: 0 <= i < |es| ==> ps[i] == EventPair(es[i])
  {
    seq(|es|, i requires 0 <= i < |es| => EventPair(es[i]))
  }

  function Perform(list: seq<Session>, e: Event): seq<Session> {
    match e
    case TopicEvent(s) => MergeSession(list, s)
    case ReviewEvent(subject) => AddReview(list, subject)
  }

  /** The events performed on a list one after the other. */
  function PerformAll(list: seq<Session>, es: seq<Event>): seq<Session> {
    if es == [] then list
    else Perform(PerformAll(list, es[..|es| - 1]), es[|es| - 1])
  }

  /** The last topic session among the events with pair `p`, if there is one. */
  function LastTopic(es: seq<Event>, p: (string, string)): Option<Session> {
    if es == [] then None
    else
      var e := es[|es| - 1];
      if e.TopicEvent? && Pair(e.session) == p then Some(e.session)
      else LastTopic(es[..|es| - 1], p)
  }

  /** The session a day ends up holding for a pair: its last topic session, or else a review. */
  function SessionFor(es: seq<Event>, p: (string, string)): Session {
    match LastTopic(es, p)
    case Some(s) => s
    case None => ReviewSession(p.0)
  }

  /**
    A day's list described without replaying it: one session per pair, in the
    order the pairs first occur among the events, each the session `SessionFor`
    names.
  */
  function Expected(es: seq<Event>): seq<Session> {
    var ps := FirstOccurrences(EventPairs(es));
    seq(|ps|, i requires 0 <= i < |ps| => SessionFor(es, ps[i]))
  }

  lemma EventPairsSnoc(es: seq<Event>, e: Event)
    ensures EventPairs(es + [e]) == EventPairs(es) + [EventPair(e)]
  {
  }

  /** The last topic session with a pair has that pair; there is none exactly when no topic event has it. */
  lemma {:induction false} LastTopicFacts(es: seq<Event>, p: (string, string))
    ensures LastTopic(es, p).Some? ==> Pair(LastTopic(es, p).value) == p && TopicEvent(LastTopic(es, p).value) in es
    ensures LastTopic(es, p).None? <==> forall i :: 0 <= i < |es| ==> !(es[i].TopicEvent? && Pair(es[i].session) == p)
    decreases |es|
  {
    if es != [] {
      var init := es[..|es| - 1];
      LastTopicFacts(init, p);
      assert forall i :: 0 <= i < |init| ==> init[i] == es[i];
    }
  }

  /** Every session of the described list carries the pair it stands for, so its pairs are the first occurrences. */
  lemma ExpectedPairs(es: seq<Event>)
    ensures Pairs(Expected(es)) == FirstOccurrences(EventPairs(es))
    ensures Distinct(Pairs(Expected(es)))
  {
    var ps := FirstOccurrences(EventPairs(es));
    FirstOccurrencesFacts(EventPairs(es));
    forall i | 0 <= i < |ps|
      ensures Pair(SessionFor(es, ps[i])) == ps[i]
    {
      var p := ps[i];
      LastTopicFacts(es, p);
      if LastTopic(es, p).None? {
        assert p in EventPairs(es);
        var j :| 0 <= j < |es| && EventPairs(es)[j] == p;
        assert es[j].ReviewEvent?;
      }
    }
  }

  /** Merging a topic session into the described list describes one event more. */
  lemma ExpectedTopic(es: seq<Event>, s: Session)
    ensures MergeSession(Expected(es), s) == Expected(es + [TopicEvent(s)])
  {
    var es' := es + [TopicEvent(s)];
    var list := Expected(es);
    ExpectedPairs(es);
    EventPairsSnoc(es, TopicEvent(s));
    FirstOccurrencesSnoc(EventPairs(es), Pair(s));
    var ps := FirstOccurrences(EventPairs(es));
    var ps' := FirstOccurrences(EventPairs(es'));
    assert ps' == AppendNew(ps, Pair(s));
    var r := MergeSession(list, s);
    MergeSessionRule(list, s);
    assert es'[..|es'| - 1] == es;
    assert |r| == |ps'|;
    forall j | 0 <= j < |r|
      ensures r[j] == SessionFor(es', ps'[j])
    {
      var q := Pairs(r)[j];
      assert q == ps'[j];
      if q != Pair(s) {
        assert j < |ps| && q == ps[j];
        assert r[j] == list[j] == SessionFor(es, q);
        assert LastTopic(es', q) == LastTopic(es, q);
      }
    }
  }

  /** Offering a review to the described list describes one event more. */
  lemma ExpectedReview(es: seq<Event>, subject: string)
    ensures AddReview(Expected(es), subject) == Expected(es + [ReviewEvent(subject)])
  {
    var p := (subject, ReviewTopic);
    var es' := es + [ReviewEvent(subject)];
    var list := Expected(es);
    ExpectedPairs(es);
    EventPairsSnoc(es, ReviewEvent(subject));
    FirstOccurrencesSnoc(EventPairs(es), p);
    var ps := FirstOccurrences(EventPairs(es));
    var ps' := FirstOccurrences(EventPairs(es'));
    assert ps' == AppendNew(ps, p);
    var r := AddReview(list, subject);
    AddReviewRule(list, subject);
    assert es'[..|es'| - 1] == es;
    assert forall q :: LastTopic(es', q) == LastTopic(es, q);
    if p in ps {
      assert ps' == ps;
    } else {
      LastTopicFacts(es, p);
      FirstOccurrencesFacts(EventPairs(es));
      assert forall i :: 0 <= i < |es| ==> EventPairs(es)[i] != p;
      assert ps' == ps + [p];
      assert |r| == |ps'|;
    }
  }

  /**
    Lines 51-62 and 74-75 together: performing the events in turn leaves exactly
    the described list. Merges overwrite only a duration and keep positions,
    reviews never overwrite, and new pairs go last.
  */
  lemma {:induction false} PerformAllExpected(es: seq<Event>)
    ensures PerformAll([], es) == Expected(es)
    decreases |es|
  {
    if es != [] {
      var init := es[..|es| - 1];
      var e := es[|es| - 1];
      PerformAllExpected(init);
      assert es == init + [e];
      match e
      case TopicEvent(s) => ExpectedTopic(init, s);
      case ReviewEvent(subject) => ExpectedReview(init, subject);
    }
  }

  /** The batch of topic sessions of one subject, as events. */
  function TopicEvents(ss: seq<Session>): (es: seq<Event>)
    ensures |es| == |ss|
    ensures forall i :: 0 <= i < |ss| ==> es[i] == TopicEvent(ss[i])
  {
    seq(|ss|, i requires 0 <= i < |ss| => TopicEvent(ss[i]))
  }

  lemma {:induction false} PerformAllConcat(list: seq<Session>, es1: seq<Event>, es2: seq<Event>)
    ensures PerformAll(list, es1 + es2) == PerformAll(PerformAll(list, es1), es2)
    decreases |es2|
  {
    if es2 == [] {
      assert es1 + es2 == es1;
    } else {
      assert (es1 + es2)[..|es1 + es2| - 1] == es1 + es2[..|es2| - 1];
      PerformAllConcat(list, es1, es2[..|es2| - 1]);
    }
  }

  /** Merging a batch is performing its topic events. */
  lemma {:induction false} MergeAllEvents(list: seq<Session>, ss: seq<Session>)
    ensures MergeAll(list, ss) == PerformAll(list, TopicEvents(ss))
    decreases |ss|
  {
    if ss != [] {
      var init := ss[..|ss| - 1];
      MergeAllEvents(list, init);
      assert TopicEvents(ss)[..|ss| - 1] == TopicEvents(init);
    }
  }

  /** Every pair the events bring has its session in the described list. */
  lemma ExpectedHas(es: seq<Event>, p: (string, string))
    requires p in EventPairs(es)
    ensures SessionFor(es, p) in Expected(es)
  {
    var ps := FirstOccurrences(EventPairs(es));
    FirstOccurrencesFacts(EventPairs(es));
    var i :| 0 <= i < |ps| && ps[i] == p;
    assert Expected(es)[i] == SessionFor(es, p);
  }

  /**
    Every session of the described list is the last topic session for its pair,
    or, when no topic event has that pair, a review some review event asked for.
  */
  lemma ExpectedFrom(es: seq<Event>, x: Session)
    requires x in Expected(es)
    ensures LastTopic(es, Pair(x)) == Some(x) ||
            (LastTopic(es, Pair(x)).None? && x == ReviewSession(x.subject) && ReviewEvent(x.subject) in es)
  {
    var ps := FirstOccurrences(EventPairs(es));
    FirstOccurrencesFacts(EventPairs(es));
    var i :| 0 <= i < |ps| && Expected(es)[i] == x;
    var p := ps[i];
    assert p in ps;
    var j :| 0 <= j < |es| && EventPairs(es)[j] == p;
    LastTopicFacts(es, p);
    if LastTopic(es, p).None? {
      assert es[j].ReviewEvent? && x == ReviewSession(p.0);
    }
  }

  /** A topic session that is the only one the events hold for its pair is in the described list. */
  lemma ExpectedTopicUnique(es: seq<Event>, s: Session)
    requires TopicEvent(s) in es
    requires forall i :: 0 <= i < |es| && es[i].TopicEvent? && Pair(es[i].session) == Pair(s) ==> es[i].session == s
    ensures s in Expected(es)
  {
    var i :| 0 <= i < |es| && es[i] == TopicEvent(s);
    assert EventPairs(es)[i] == Pair(s);
    ExpectedHas(es, Pair(s));
    LastTopicFacts(es, Pair(s));
    var last := LastTopic(es, Pair(s)).value;
    var i' :| 0 <= i' < |es| && es[i'] == TopicEvent(last);
  }
}
