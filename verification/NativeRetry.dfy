/** What a deletion that failed leaves in the way of later ones, as long as the records stay. */
module NativeRetry {
  import opened SessionState
  import opened NativeDomain
  import opened NativeDelete
  import opened NativeRuns

  /** A call leaves stuck what was stuck before, and what it came to and marked without getting on
      to finalize it; a refusal of the domain leaves nothing stuck. */
  lemma StrandedExactly(w: World, id: ResourceId, a: Answers, x: EntityId)
    requires Sound(w) && x in Called(w, id, a).es && x in w.es && w.es[x].kind != Topic
    ensures var v := Called(w, id, a);
            Stranded(v.es, v.rs, x) <==>
              || Stranded(w.es, w.rs, x)
              || (Live(w.rs, id) && Stands(w.es, w.rs, id) && x in Reached(w.es, w.rs, a, w.rs[id].native)
                  && exists r :: RecordOf(w.es, w.rs, r, x) && r in a.broken)
  {
    var v := Called(w, id, a);
    assert Contained(w.es, x) && v.es[x] == w.es[x];
    forall r | r in w.rs
      ensures RecordOf(v.es, v.rs, r, x) ==> RecordOf(w.es, w.rs, r, x)
      ensures RecordOf(w.es, w.rs, r, x) && w.rs[r].deleted ==> v.rs[r] == w.rs[r]
    {
    }
    if r :| RecordOf(w.es, w.rs, r, x) && w.rs[r].deleted {
      assert RecordOf(v.es, v.rs, r, x) && v.rs[r].deleted;
    } else if r :| RecordOf(w.es, w.rs, r, x) && r in a.broken && Live(w.rs, id) && Stands(w.es, w.rs, id)
                   && x in Reached(w.es, w.rs, a, w.rs[id].native) {
      assert RecordOf(v.es, v.rs, r, x) && v.rs[r].deleted;
    }
  }

  /** What is stuck stays so through a call, and keeps all that contains it. */
  lemma StrandedStays(w: World, call: Call, x: EntityId, e: EntityId)
    requires Sound(w) && x in w.es && w.es[x].kind != Topic && Stranded(w.es, w.rs, x) && x in Tree(w.es, e)
    ensures !Takes(w, call, x) && !Takes(w, call, e) && !Goes(w.es, w.rs, call.answers, e)
    ensures var v := Called(w, call.id, call.answers);
            && x in v.es && e in v.es && x in Tree(v.es, e) && Stranded(v.es, v.rs, x)
  {
    assert x in Tree(w.es, x) && Contained(w.es, x);
    var r :| RecordOf(w.es, w.rs, r, x) && w.rs[r].deleted;
    assert Hindered(w.es, w.rs, call.answers.broken, x);
    CallTakesExactly(w, call, x);
    CallKeepsSound(w, call.id, call.answers);
    StrandedExactly(w, call.id, call.answers, x);
    BelowStays(w.es, Called(w, call.id, call.answers).es, x, e);
  }

  /** What contains an entity is there as long as the entity is. */
  lemma BelowStays(es0: Domain, es: Domain, x: EntityId, e: EntityId)
    requires Formed(es0) && Formed(es) && x in es && x in Tree(es0, e) && forall c :: c in es && c in es0 ==> es[c] == es0[c]
    requires es.Keys <= es0.Keys || es0.Keys <= es.Keys
    ensures x in Tree(es, e) && e in es
  {
    assert Contained(es0, x) && Contained(es, x);
    if x != e {
      assert es[x].parent.value in es && Contained(es, es[x].parent.value);
    }
  }

  /** After calls that only the domain refused nothing but a refusal would stand in an entity's
      way. For it to go it still takes a call that comes to it: see FinalizedGoesExactly. */
  lemma {:induction false} RetryUnhindered(w: World, calls: seq<Call>, x: EntityId)
    requires Sound(w) && x in Exec(w, calls).es && x in w.es && w.es[x].kind != Topic && !Stranded(w.es, w.rs, x)
    requires forall n :: 0 <= n < |calls| ==> calls[n].answers.broken == {}
    ensures !Hindered(Exec(w, calls).es, Exec(w, calls).rs, {}, x)
    decreases |calls|
  {
    if calls != [] {
      var v := Called(w, calls[0].id, calls[0].answers);
      RunKeepsEntities(v, calls[1..], x);
      CallKeepsSound(w, calls[0].id, calls[0].answers);
      StrandedExactly(w, calls[0].id, calls[0].answers, x);
      RetryUnhindered(v, calls[1..], x);
    } else {
      assert Hindered(w.es, w.rs, {}, x) ==> Stranded(w.es, w.rs, x);
    }
  }

  /** Then an entity's tree is let go exactly when the domain no longer refuses any of it. */
  lemma RetryGoes(w: World, calls: seq<Call>, e: EntityId, later: Answers)
    requires Sound(w) && e in w.es && w.es[e].kind != Topic && e in Exec(w, calls).es && later.broken == {}
    requires forall n :: 0 <= n < |calls| ==> calls[n].answers.broken == {}
    requires forall x :: x in Tree(w.es, e) ==> !Stranded(w.es, w.rs, x)
    ensures var t := Exec(w, calls); Goes(t.es, t.rs, later, e) <==> Tree(t.es, e) !! later.refused
  {
    var t := Exec(w, calls);
    forall x | x in t.es
      ensures x in w.es && w.es[x] == t.es[x]
    {
      RunKeepsEntities(w, calls, x);
    }
    forall x | x in Tree(t.es, e)
      ensures !Hindered(t.es, t.rs, {}, x)
    {
      assert x in Tree(w.es, e) && w.es[x].kind != Topic;
      RetryUnhindered(w, calls, x);
    }
  }

  // ----- topics -----

  const UNUSED: Domain := map[0 := Entity(Participant, None, 0), 1 := Entity(Topic, Some(0), 0)]

  /** A topic that no reader or writer ever used stays, and keeps its participant. */
  lemma UnusedTopicHoldsParticipant(a: Answers)
    ensures Sound(World(UNUSED, map[])) && Goes(UNUSED, map[], a.(refused := {}), 0) && !TopicsGo(UNUSED, a.refused, 0)
  {
    assert 1 in UNUSED && UNUSED[1].kind == Topic && UNUSED[1].parent == Some(0);
  }
}
