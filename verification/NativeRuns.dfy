/** Runs of calls that delete native resources: what each call takes, and what a call that failed
    leaves to later ones. */
module NativeRuns {
  import opened SessionState
  import opened NativeDomain
  import opened NativeDelete

  /** What holds of entities and records at all times. */
  ghost predicate Sound(w: World) { Formed(w.es) && Consistent(w.es, w.rs) && NoneStale(w.es, w.rs) }

  lemma EmptySound()
    ensures Sound(World(map[], map[]))
  {
  }

  /** A new entity, of which no record can know yet. */
  lemma EntityKeepsSound(w: World, x: EntityId, entity: Entity)
    requires Sound(w) && x !in w.es && Formed(w.es[x := entity])
    requires forall r :: r in w.rs && w.rs[r].kind == Topic ==> w.rs[r].native != x
    ensures Sound(World(w.es[x := entity], w.rs)) && NoRecord(w.rs, x)
  {
    var es1 := w.es[x := entity];
    forall r, y | RecordOf(es1, w.rs, r, y) && es1[y].kind != Topic
      ensures RecordOf(w.es, w.rs, r, y)
    {
      assert Contained(es1, y) && OfEntity(w.rs[r]);
    }
  }

  /** A record is made for an entity that has none. */
  lemma RecordKeepsSound(w: World, x: EntityId, id: ResourceId)
    requires Sound(w) && x in w.es && id !in w.rs && NoRecord(w.rs, x)
    ensures Sound(World(w.es, w.rs[id := Record(w.es[x].kind, x, false)]))
  {
    var rs1 := w.rs[id := Record(w.es[x].kind, x, false)];
    forall r, q, y | RecordOf(w.es, rs1, r, y) && RecordOf(w.es, rs1, q, y) && w.es[y].kind != Topic
      ensures r == q
    {
      assert Contained(w.es, y) && OfEntity(rs1[r]) && OfEntity(rs1[q]);
      assert r != id ==> RecordOf(w.es, w.rs, r, y);
      assert q != id ==> RecordOf(w.es, w.rs, q, y);
    }
  }

  // ----- what a call takes -----

  /** What is in a tree and contains something is right below the top. */
  lemma ContainersAreNear(es: Domain, e: EntityId, x: EntityId, c: EntityId)
    requires Formed(es) && x in Tree(es, e) && x != e && Child(es, c, x)
    ensures Child(es, x, e)
  {
    assert Contained(es, c) && Contained(es, x);
  }

  /** Whatever goes goes with all it contains. */
  lemma TakenClosed(es: Domain, rs: Table, a: Answers, e: EntityId, x: EntityId, c: EntityId)
    requires Formed(es) && e in es && es[e].kind != Topic && x in TakenBy(es, rs, a, e) && Child(es, c, x)
    ensures c in TakenBy(es, rs, a, e)
  {
    TakenMeans(es, rs, a, e, x);
    TreeOfChild(es, x, c);
    if x == e {
      GoesReachesAll(es, rs, a, e);
    } else {
      forall d | Child(es, d, x)
        ensures Passes(es, rs, a, d)
      {
        TreeOfChild(es, x, d);
      }
      assert Turn(es, rs, a, x, c) && x in Tree(es, x) && !Hindered(es, rs, a.broken, x);
      var p :| Turn(es, rs, a, e, p) && x in ReachedUnder(es, rs, a, p);
      ContainersAreNear(es, e, x, c);
      assert x == p && c in ReachedUnder(es, rs, a, x);
      TreeOfChild(es, e, p);
    }
    TakenIf(es, rs, a, e, c);
  }

  /** An entity that a deletion takes is in its tree and goes itself. */
  lemma TakenMeans(es: Domain, rs: Table, a: Answers, e: EntityId, x: EntityId)
    requires Formed(es) && e in es && es[e].kind != Topic && x in TakenBy(es, rs, a, e)
    ensures x in Tree(es, e) && es[x].kind != Topic && Goes(es, rs, a, x) && !Hindered(es, rs, a.broken, e)
    ensures x == e ==> TopicsGo(es, a.refused, e)
    ensures x != e ==> x in ReachedIn(es, rs, a, e)
  {
    ReachedInTree(es, rs, a, e);
    assert e in Tree(es, e);
  }

  lemma TakenIf(es: Domain, rs: Table, a: Answers, e: EntityId, x: EntityId)
    requires x in Reached(es, rs, a, e) && Goes(es, rs, a, x) && x != e
    ensures x in TakenBy(es, rs, a, e)
  {
  }

  /** The topics of a participant that goes go with it. */
  lemma TopicsTaken(es: Domain, gone: set<EntityId>, refused: set<EntityId>, e: EntityId, t: EntityId)
    requires Formed(es) && e in es && TopicsGo(es, refused, e) && Tree(es, e) <= gone
    requires t in es && es[t].kind == Topic && es[t].parent == Some(e)
    ensures t in Freed(es, gone, refused)
  {
    forall x | User(es, x, t)
      ensures x in gone
    {
      assert Contained(es, x);
    }
  }

  lemma LessFormed(es: Domain, gone: set<EntityId>, refused: set<EntityId>)
    requires Formed(es) && (forall x, c :: x in gone && Child(es, c, x) ==> c in gone)
    requires forall x :: x in gone ==> x in es && es[x].kind != Topic
    requires forall x, t :: x in gone && t in es && es[t].kind == Topic && es[t].parent == Some(x) ==> t in Freed(es, gone, refused)
    ensures Formed(Less(es, gone, refused))
  {
    var es1 := Less(es, gone, refused);
    forall c | c in es1
      ensures Contained(es1, c)
    {
      assert Contained(es, c);
      if es[c].kind != Participant {
        var p := es[c].parent.value;
        assert Contained(es, p) && p !in gone;
      }
    }
    forall x: EntityId, t: EntityId | User(es1, x, t)
      ensures t in es1 && es1[t].kind == Topic && es1[t].parent == es1[es1[x].parent.value].parent
    {
      assert User(es, x, t) && Contained(es1, x);
    }
  }

  lemma TakenFormed(es: Domain, rs: Table, a: Answers, e: EntityId)
    requires Formed(es) && e in es && es[e].kind != Topic
    ensures Formed(Less(es, TakenBy(es, rs, a, e), a.refused))
  {
    var gone := TakenBy(es, rs, a, e);
    forall x | x in gone
      ensures x in es && es[x].kind != Topic
    {
      TakenMeans(es, rs, a, e, x);
    }
    forall x, c | x in gone && Child(es, c, x)
      ensures c in gone
    {
      TakenClosed(es, rs, a, e, x, c);
    }
    forall x, t | x in gone && t in es && es[t].kind == Topic && es[t].parent == Some(x)
      ensures t in Freed(es, gone, a.refused)
    {
      TakenMeans(es, rs, a, e, x);
      assert Contained(es, t) && Contained(es, x) && Contained(es, e);
      if x != e {
        ChildKindsBelow(es, e, x);
        assert false;
      }
      GoesReachesAll(es, rs, a, e);
      TopicsTaken(es, gone, a.refused, e, t);
    }
    LessFormed(es, gone, a.refused);
  }

  /** Below the top of a tree there is no participant. */
  lemma ChildKindsBelow(es: Domain, e: EntityId, x: EntityId)
    requires Formed(es) && x in Tree(es, e) && x != e
    ensures es[x].kind != Participant
  {
    assert Contained(es, x);
  }

  lemma RecordedConsistent(es: Domain, es1: Domain, rs: Table, broken: set<ResourceId>, reached: set<EntityId>)
    requires Formed(es1) && Consistent(es, rs) && forall x :: x in es1 ==> x in es && es1[x] == es[x]
    ensures Consistent(es1, Recorded(rs, broken, reached))
  {
    var rs1 := Recorded(rs, broken, reached);
    forall r, x | RecordOf(es1, rs1, r, x)
      ensures RecordOf(es, rs, r, x)
    {
      assert Contained(es1, x);
    }
  }

  lemma TakenNoneStale(es: Domain, rs: Table, a: Answers, e: EntityId)
    requires Formed(es) && e in es && es[e].kind != Topic && NoneStale(es, rs)
    ensures NoneStale(Less(es, TakenBy(es, rs, a, e), a.refused), Recorded(rs, a.broken, Reached(es, rs, a, e)))
  {
    var rs1 := Recorded(rs, a.broken, Reached(es, rs, a, e));
    forall r | r in rs1 && OfEntity(rs1[r])
      ensures rs1[r].native !in TakenBy(es, rs, a, e) && rs1[r].native !in Freed(es, TakenBy(es, rs, a, e), a.refused)
    {
      var x := rs[r].native;
      assert OfEntity(rs[r]) && RecordOf(es, rs, r, x) && x in Tree(es, x);
      assert x in Reached(es, rs, a, e) ==> Hindered(es, rs, a.broken, x);
      assert x in TakenBy(es, rs, a, e) ==> !Hindered(es, rs, a.broken, x);
    }
  }

  /** Every call keeps it, however it ends. */
  lemma CallKeepsSound(w: World, id: ResourceId, a: Answers)
    requires Sound(w)
    ensures Sound(Called(w, id, a))
  {
    if Live(w.rs, id) {
      if Stands(w.es, w.rs, id) {
        var e := w.rs[id].native;
        TakenFormed(w.es, w.rs, a, e);
        RecordedConsistent(w.es, Called(w, id, a).es, w.rs, a.broken, Reached(w.es, w.rs, a, e));
        TakenNoneStale(w.es, w.rs, a, e);
      } else {
        MarkOnly(w.es, w.rs, id);
        MarkFinal(w.es, w.rs, id);
        DropTopicKeeps(w.es, w.rs[id := Final(w.rs[id])], w.rs[id].native, a.refused);
      }
    }
  }

  // ----- runs of calls -----

  datatype Call = Call(id: ResourceId, answers: Answers)

  ghost function Exec(w: World, calls: seq<Call>): World
    decreases |calls|
  {
    if calls == [] then w else Exec(Called(w, calls[0].id, calls[0].answers), calls[1..])
  }

  /** The call is on a live record of an entity that contains the given one or is it, nothing
      about the record is broken, the deletion comes to the entity, and all of its tree goes. */
  ghost predicate Takes(w: World, call: Call, x: EntityId) {
    var id, a := call.id, call.answers;
    Live(w.rs, id) && id !in a.broken && Stands(w.es, w.rs, id) &&
    var e := w.rs[id].native;
    && x in Tree(w.es, e) && x in Reached(w.es, w.rs, a, e) && Goes(w.es, w.rs, a, x)
    && (x == e ==> TopicsGo(w.es, a.refused, e))
  }

  lemma BrokenHinders(w: World, id: ResourceId, a: Answers)
    requires Live(w.rs, id) && Stands(w.es, w.rs, id) && id in a.broken
    ensures Hindered(w.es, w.rs, a.broken, w.rs[id].native)
  {
    assert RecordOf(w.es, w.rs, id, w.rs[id].native);
  }

  /** One call takes an entity off the domain exactly when it takes it in this sense. */
  lemma CallTakesExactly(w: World, call: Call, x: EntityId)
    requires Sound(w) && x in w.es && w.es[x].kind != Topic
    ensures x !in Called(w, call.id, call.answers).es <==> Takes(w, call, x)
    ensures x in Called(w, call.id, call.answers).es ==> Called(w, call.id, call.answers).es[x] == w.es[x]
  {
    var id, a := call.id, call.answers;
    if Live(w.rs, id) && Stands(w.es, w.rs, id) {
      var e := w.rs[id].native;
      if x in TakenBy(w.es, w.rs, a, e) {
        TakenMeans(w.es, w.rs, a, e, x);
      }
      if id in a.broken {
        BrokenHinders(w, id, a);
      }
    }
  }

  /** A deletion whose tree goes takes all that the entity contains, and itself but for its
      topics. */
  lemma GoesTakes(w: World, call: Call, x: EntityId)
    requires Sound(w) && Live(w.rs, call.id) && Stands(w.es, w.rs, call.id) && w.es[w.rs[call.id].native].kind != Topic
    requires var e := w.rs[call.id].native;
             Goes(w.es, w.rs, call.answers, e) && x in Tree(w.es, e) && (x == e ==> TopicsGo(w.es, call.answers.refused, e))
    ensures Takes(w, call, x)
  {
    var e := w.rs[call.id].native;
    GoesReachesAll(w.es, w.rs, call.answers, e);
    assert e in Tree(w.es, e) && RecordOf(w.es, w.rs, call.id, e);
  }

  /** The state after the first `n` calls of a run. */
  ghost function After(w: World, calls: seq<Call>, n: nat): World
    requires n <= |calls|
  {
    Exec(w, calls[..n])
  }

  lemma AfterShift(w: World, calls: seq<Call>, n: nat)
    requires 0 < n <= |calls|
    ensures After(w, calls, n) == After(Called(w, calls[0].id, calls[0].answers), calls[1..], n - 1)
  {
    assert calls[..n][1..] == calls[1..][..n - 1] && calls[..n][0] == calls[0];
  }

  lemma {:induction false} ExecSound(w: World, calls: seq<Call>)
    requires Sound(w)
    ensures Sound(Exec(w, calls))
    decreases |calls|
  {
    if calls != [] {
      CallKeepsSound(w, calls[0].id, calls[0].answers);
      ExecSound(Called(w, calls[0].id, calls[0].answers), calls[1..]);
    }
  }

  ghost predicate SomeTakes(w: World, calls: seq<Call>, x: EntityId) {
    exists n :: 0 <= n < |calls| && Takes(After(w, calls, n), calls[n], x)
  }

  lemma SomeTakesSplits(w: World, calls: seq<Call>, x: EntityId)
    requires calls != []
    ensures SomeTakes(w, calls, x) <==> Takes(w, calls[0], x) || SomeTakes(Called(w, calls[0].id, calls[0].answers), calls[1..], x)
  {
    var w1, rest := Called(w, calls[0].id, calls[0].answers), calls[1..];
    assert calls[..0] == [] && After(w, calls, 0) == w;
    forall n | 0 < n < |calls|
      ensures After(w, calls, n) == After(w1, rest, n - 1) && calls[n] == rest[n - 1]
    {
      AfterShift(w, calls, n);
    }
    if n :| 0 <= n < |rest| && Takes(After(w1, rest, n), rest[n], x) {
      assert Takes(After(w, calls, n + 1), calls[n + 1], x);
    }
  }

  /** What is not there stays away from whatever calls. */
  lemma {:induction false} GoneStays(w: World, calls: seq<Call>, x: EntityId)
    requires x !in w.es
    ensures x !in Exec(w, calls).es && !SomeTakes(w, calls, x)
    decreases |calls|
  {
    if calls != [] {
      GoneStays(Called(w, calls[0].id, calls[0].answers), calls[1..], x);
      SomeTakesSplits(w, calls, x);
    }
  }

  /** Over a run of calls an entity goes exactly when one of them takes it. */
  lemma {:induction false} RunTakesExactly(w: World, calls: seq<Call>, x: EntityId)
    requires Sound(w) && x in w.es && w.es[x].kind != Topic
    ensures x !in Exec(w, calls).es <==> SomeTakes(w, calls, x)
    decreases |calls|
  {
    if calls != [] {
      var w1 := Called(w, calls[0].id, calls[0].answers);
      CallTakesExactly(w, calls[0], x);
      CallKeepsSound(w, calls[0].id, calls[0].answers);
      SomeTakesSplits(w, calls, x);
      if x in w1.es {
        RunTakesExactly(w1, calls[1..], x);
      } else {
        GoneStays(w1, calls[1..], x);
      }
    }
  }

  // ----- after a deletion that failed -----

  /** No live record of the entity: one was finalized or marked, or none was ever made. */
  predicate NoLiveRecord(rs: Table, x: EntityId) { forall r :: r in rs && !rs[r].deleted ==> !(OfEntity(rs[r]) && rs[r].native == x) }

  lemma CallKeepsNoLive(w: World, id: ResourceId, a: Answers, x: EntityId)
    requires NoLiveRecord(w.rs, x)
    ensures NoLiveRecord(Called(w, id, a).rs, x)
  {
    var rs1 := Called(w, id, a).rs;
    forall r | r in rs1 && !rs1[r].deleted
      ensures rs1[r] == w.rs[r]
    {
    }
  }

  lemma {:induction false} RunKeepsNoLive(w: World, calls: seq<Call>, x: EntityId)
    requires NoLiveRecord(w.rs, x)
    ensures NoLiveRecord(Exec(w, calls).rs, x)
    decreases |calls|
  {
    if calls != [] {
      CallKeepsNoLive(w, calls[0].id, calls[0].answers, x);
      RunKeepsNoLive(Called(w, calls[0].id, calls[0].answers), calls[1..], x);
    }
  }

  /** The call is on a live and unbroken record of an entity that contains the given one, comes
      to it, and lets its tree go. */
  ghost predicate TakesFromAbove(w: World, call: Call, x: EntityId) {
    Takes(w, call, x) && w.rs[call.id].native != x
  }

  /** Once its own record has been finalized or marked, an entity goes in a run of calls exactly
      when one of them is on a live record of an entity that contains it and takes it from there. */
  lemma FinalizedGoesExactly(w: World, calls: seq<Call>, x: EntityId)
    requires Sound(w) && x in w.es && w.es[x].kind != Topic && NoLiveRecord(w.rs, x)
    ensures x !in Exec(w, calls).es <==> exists n :: 0 <= n < |calls| && TakesFromAbove(After(w, calls, n), calls[n], x)
  {
    RunTakesExactly(w, calls, x);
    forall n | 0 <= n < |calls| && Takes(After(w, calls, n), calls[n], x)
      ensures TakesFromAbove(After(w, calls, n), calls[n], x)
    {
      RunKeepsNoLive(w, calls[..n], x);
    }
  }

  /** Nothing contains a participant: after its own record was finalized or marked no call ever
      takes it. */
  lemma ParticipantStays(w: World, calls: seq<Call>, x: EntityId)
    requires Sound(w) && x in w.es && w.es[x].kind == Participant && NoLiveRecord(w.rs, x)
    ensures x in Exec(w, calls).es
  {
    FinalizedGoesExactly(w, calls, x);
    if n :| 0 <= n < |calls| && TakesFromAbove(After(w, calls, n), calls[n], x) {
      ExecSound(w, calls[..n]);
      var v := After(w, calls, n);
      var e := v.rs[calls[n].id].native;
      RunKeepsEntities(w, calls[..n], x);
      ChildKindsBelow(v.es, e, x);
      assert false;
    }
  }

  lemma {:induction false} RunKeepsEntities(w: World, calls: seq<Call>, x: EntityId)
    requires x in Exec(w, calls).es
    ensures x in w.es && Exec(w, calls).es[x] == w.es[x]
    decreases |calls|
  {
    if calls != [] {
      RunKeepsEntities(Called(w, calls[0].id, calls[0].answers), calls[1..], x);
    }
  }
}
