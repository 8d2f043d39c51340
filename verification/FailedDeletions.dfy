/** Two runs of deletions that fail, and what comes of them. */
module FailedDeletions {
  import opened SessionState
  import D = ResourceDb
  import opened NativeDomain
  import opened NativeDelete
  import NativeRuns
  import opened ResourceWorld

  const PARTICIPANT := "P"

  const SUBSCRIBER := "P::S"

  const READER := "P::S::R"

  const NAMES: Naming := (x: EntityId) => if x == 0 then PARTICIPANT else if x == 1 then SUBSCRIBER else if x == 2 then READER else "P::T"

  /** A participant with a subscriber, its reader and the reader's topic. */
  const ENTITIES: Domain := map[
    0 := Entity(Participant, None, 0), 1 := Entity(Subscriber, Some(0), 0), 2 := Entity(Kind.Reader, Some(1), 3),
    3 := Entity(Kind.Topic, Some(0), 0)]

  const TABLE: Table := map[
    PARTICIPANT := Record(Participant, 0, false), SUBSCRIBER := Record(Subscriber, 1, false), READER := Record(Kind.Reader, 2, false)]

  /** Three sessions, each attached to one of them. */
  const LINKS := [D.Link(1, 0x16, READER, D.Kind.Reader), D.Link(2, 0x14, SUBSCRIBER, D.Kind.Subscriber), D.Link(3, 0x11, PARTICIPANT, D.Kind.Participant)]

  const RECORDS: map<D.Name, D.Record> := map[
    PARTICIPANT := D.Record(D.Kind.Participant, 1, false, false), SUBSCRIBER := D.Record(D.Kind.Subscriber, 1, false, false),
    READER := D.Record(D.Kind.Reader, 1, false, false)]

  const ATTACHED := Joint(World(ENTITIES, TABLE), D.Db(RECORDS, LINKS))

  const ORDER: seq<EntityId> := [0, 1, 2, 3]

  lemma Names()
    ensures PARTICIPANT != SUBSCRIBER && SUBSCRIBER != READER && PARTICIPANT != READER
    ensures ENTITIES.Keys == {0, 1, 2, 3} && TABLE.Keys == {PARTICIPANT, SUBSCRIBER, READER}
    ensures Tree(ENTITIES, 0) == {0, 1, 2} && Tree(ENTITIES, 1) == {1, 2} && Tree(ENTITIES, 2) == {2}
  {
    assert |PARTICIPANT| == 1 && |SUBSCRIBER| == 4 && |READER| == 7;
    assert Child(ENTITIES, 2, 1) && Child(ENTITIES, 1, 0);
  }

  lemma EntitiesFormed()
    ensures Formed(ENTITIES)
  {
    Names();
  }

  // ----- how they come about -----

  /** The entities come, get their records, and the sessions are attached. */
  const SETUP: seq<Move> := [
    Appearing(0, ENTITIES[0]), Appearing(3, ENTITIES[3]), Appearing(1, ENTITIES[1]), Appearing(2, ENTITIES[2]),
    Recording(0, D.Kind.Participant, D.Works), Recording(1, D.Kind.Subscriber, D.Works), Recording(2, D.Kind.Reader, D.Works),
    Attaching(1, 0x16, READER), Attaching(2, 0x14, SUBSCRIBER), Attaching(3, 0x11, PARTICIPANT)]

  const ARRIVED := Joint(World(ENTITIES, map[]), D.Db(map[], []))

  /** The first `n` of them. */
  function Come(n: nat): Domain {
    if n == 0 then map[]
    else if n == 1 then map[0 := ENTITIES[0]]
    else if n == 2 then map[0 := ENTITIES[0], 3 := ENTITIES[3]]
    else if n == 3 then map[0 := ENTITIES[0], 3 := ENTITIES[3], 1 := ENTITIES[1]]
    else ENTITIES
  }

  lemma ComeFormed(n: nat)
    ensures Formed(Come(n))
  {
    Names();
  }

  function ComeSoFar(n: nat): Joint { Joint(World(Come(n), map[]), D.Db(map[], [])) }

  lemma Comes(n: nat)
    requires n < 4
    ensures Do(NAMES, ComeSoFar(n), SETUP[n]) == ComeSoFar(n + 1)
  {
    ComeFormed(n + 1);
    assert SETUP[n].x !in Come(n) && Come(n)[SETUP[n].x := SETUP[n].entity] == Come(n + 1);
  }

  lemma {:induction false} AllCome(n: nat)
    requires n <= 4
    ensures Exec(NAMES, EMPTY, SETUP) == Exec(NAMES, ComeSoFar(n), SETUP[n..])
  {
    if n == 0 {
      assert SETUP[0..] == SETUP;
    } else {
      AllCome(n - 1);
      Comes(n - 1);
      Next(ComeSoFar(n - 1), SETUP[n - 1..], ComeSoFar(n));
      assert SETUP[n - 1..][1..] == SETUP[n..];
    }
  }

  lemma Arriving()
    ensures Exec(NAMES, EMPTY, SETUP) == Exec(NAMES, ARRIVED, SETUP[4..])
  {
    AllCome(4);
  }

  lemma Next(j: Joint, moves: seq<Move>, t: Joint)
    requires moves != [] && Do(NAMES, j, moves[0]) == t
    ensures Exec(NAMES, j, moves) == Exec(NAMES, t, moves[1..])
  {
  }

  const FRESH: map<D.Name, D.Record> := map[
    PARTICIPANT := D.Record(D.Kind.Participant, 0, false, false), SUBSCRIBER := D.Record(D.Kind.Subscriber, 0, false, false),
    READER := D.Record(D.Kind.Reader, 0, false, false)]

  const FILED := Joint(World(ENTITIES, TABLE), D.Db(FRESH, []))

  lemma Filing()
    ensures Exec(NAMES, ARRIVED, SETUP[4..]) == Exec(NAMES, FILED, SETUP[7..])
  {
    Names();
    var t1 := Joint(World(ENTITIES, map[PARTICIPANT := TABLE[PARTICIPANT]]), D.Db(map[PARTICIPANT := FRESH[PARTICIPANT]], []));
    var t2 := Joint(World(ENTITIES, map[PARTICIPANT := TABLE[PARTICIPANT], SUBSCRIBER := TABLE[SUBSCRIBER]]),
                    D.Db(map[PARTICIPANT := FRESH[PARTICIPANT], SUBSCRIBER := FRESH[SUBSCRIBER]], []));
    assert Do(NAMES, ARRIVED, SETUP[4]) == t1;
    assert Do(NAMES, t1, SETUP[5]) == t2;
    assert Do(NAMES, t2, SETUP[6]) == FILED by {
      assert t2.w.rs[READER := TABLE[READER]] == TABLE && t2.db.records[READER := FRESH[READER]] == FRESH;
    }
    Next(ARRIVED, SETUP[4..], t1);
    Next(t1, SETUP[5..], t2);
    Next(t2, SETUP[6..], FILED);
    assert SETUP[4..][1..] == SETUP[5..] && SETUP[5..][1..] == SETUP[6..] && SETUP[6..][1..] == SETUP[7..];
  }

  lemma Joining()
    ensures Exec(NAMES, FILED, SETUP[7..]) == ATTACHED
  {
    Names();
    var r1 := FRESH[READER := RECORDS[READER]];
    var r2 := r1[SUBSCRIBER := RECORDS[SUBSCRIBER]];
    assert r2[PARTICIPANT := RECORDS[PARTICIPANT]] == RECORDS;
    var t1 := FILED.(db := D.Db(r1, [LINKS[0]]));
    var t2 := FILED.(db := D.Db(r2, [LINKS[0], LINKS[1]]));
    assert Do(NAMES, FILED, SETUP[7]) == t1;
    assert Do(NAMES, t1, SETUP[8]) == t2;
    assert Do(NAMES, t2, SETUP[9]) == ATTACHED;
    Next(FILED, SETUP[7..], t1);
    Next(t1, SETUP[8..], t2);
    Next(t2, SETUP[9..], ATTACHED);
    assert SETUP[7..][1..] == SETUP[8..] && SETUP[8..][1..] == SETUP[9..] && SETUP[9..][1..] == [];
  }

  lemma AttachedReached()
    ensures Exec(NAMES, EMPTY, SETUP) == ATTACHED && Inv(NAMES, ATTACHED)
  {
    Arriving();
    Filing();
    Joining();
    EmptyInv(NAMES);
    ExecInv(NAMES, EMPTY, SETUP);
  }

  /** As long as no record is marked and nothing refused, every tree goes. */
  lemma AllGo(e: EntityId, broken: set<ResourceId>)
    requires e in ENTITIES && (forall r :: r in TABLE && TABLE[r].native in Tree(ENTITIES, e) ==> r !in broken)
    ensures Goes(ENTITIES, TABLE, Answers({}, broken, ORDER), e)
  {
    Names();
    forall x | x in Tree(ENTITIES, e)
      ensures !Hindered(ENTITIES, TABLE, broken, x)
    {
      forall r | RecordOf(ENTITIES, TABLE, r, x)
        ensures !TABLE[r].deleted && r !in broken
      {
        assert r in TABLE.Keys;
      }
    }
  }

  lemma TopicUsed(es: Domain, refused: set<EntityId>)
    requires es == ENTITIES && 3 !in refused
    ensures TopicsGo(es, refused, 0)
  {
    Names();
    assert User(es, 2, 3) && 2 in Tree(es, 0);
  }

  // ----- a participant that is refused once -----

  /** The participant's own session deletes it, and the domain refuses. */
  const REFUSING: Move := Detaching(2, true, true, Answers({0}, {}, ORDER))

  lemma ParticipantStands()
    ensures Live(TABLE, PARTICIPANT) && Stands(ENTITIES, TABLE, PARTICIPANT) && TABLE[PARTICIPANT].native == 0 && 0 in Tree(ENTITIES, 0)
  {
    Names();
  }

  lemma RefusedAnswer(w: World, r: ResourceId, a: Answers, e: EntityId)
    requires Live(w.rs, r) && Stands(w.es, w.rs, r) && w.rs[r].native == e && e in a.refused && e in Tree(w.es, e)
    ensures !Answer(w, r, a)
  {
  }

  lemma FailedDetach(j: Joint, k: nat, a: Answers, r: ResourceId)
    requires k < |j.db.links| && j.db.links[k].name == r && Deletes(j.db, k, true, true) && !Answer(j.w, r, a)
    ensures DetachBoth(j, k, true, true, a).w == Called(j.w, r, a)
  {
  }

  lemma LastOfParticipant()
    ensures LINKS[2].name == PARTICIPANT && Deletes(ATTACHED.db, 2, true, true)
  {
    Names();
  }

  lemma RefusingCalls()
    ensures Do(NAMES, ATTACHED, REFUSING).w == Called(ATTACHED.w, PARTICIPANT, REFUSING.answers)
    ensures !Answer(ATTACHED.w, PARTICIPANT, REFUSING.answers)
  {
    ParticipantStands();
    RefusedAnswer(ATTACHED.w, PARTICIPANT, REFUSING.answers, 0);
    LastOfParticipant();
    FailedDetach(ATTACHED, 2, REFUSING.answers, PARTICIPANT);
    DoesDetach(ATTACHED, 2, REFUSING.answers);
  }

  lemma AnswersWell()
    ensures Answer(ATTACHED.w, PARTICIPANT, Answers({}, {}, ORDER))
  {
    ParticipantStands();
    AllGo(0, {});
    TopicUsed(ENTITIES, {});
  }

  /** Without the refusal the participant goes. After it the deletion may be repeated, and answers
      well, and does nothing; the participant stays in every run. */
  lemma RefusedOnceStays(again: Answers, moves: seq<Move>)
    ensures Exec(NAMES, EMPTY, SETUP) == ATTACHED && Answer(ATTACHED.w, PARTICIPANT, Answers({}, {}, ORDER))
    ensures var t := Do(NAMES, ATTACHED, REFUSING);
            && !Answer(ATTACHED.w, PARTICIPANT, REFUSING.answers)
            && 0 in t.w.es && 1 !in t.w.es && PARTICIPANT in t.w.rs
            && Answer(t.w, PARTICIPANT, again) && Called(t.w, PARTICIPANT, again) == t.w
            && 0 in Exec(NAMES, t, moves).w.es
  {
    AttachedReached();
    AnswersWell();
    RefusingCalls();
    RefusedTakes(REFUSING.answers);
    ParticipantStands();
    CallMarks(ATTACHED.w, PARTICIPANT, REFUSING.answers);
    StepInv(NAMES, ATTACHED, REFUSING);
    RefusedForGood(Do(NAMES, ATTACHED, REFUSING), moves);
  }

  lemma RefusedForGood(t: Joint, moves: seq<Move>)
    requires Inv(NAMES, t) && 0 in t.w.es && t.w.es[0].kind == Participant
    requires PARTICIPANT in t.w.rs && t.w.rs[PARTICIPANT].deleted && t.w.rs[PARTICIPANT].native == 0
    ensures 0 in Exec(NAMES, t, moves).w.es
  {
    FailedParticipantStays(NAMES, t, moves, 0);
  }

  lemma AttachedSound()
    ensures NativeRuns.Sound(World(ENTITIES, TABLE))
  {
    AttachedReached();
  }

  lemma SubscriberReached(a: Answers)
    requires a == Answers({0}, {}, ORDER)
    ensures 1 in Reached(ENTITIES, TABLE, a, 0) && Goes(ENTITIES, TABLE, a, 1) && 1 in Tree(ENTITIES, 0) && 0 in Tree(ENTITIES, 0)
  {
    Names();
    AllGo(1, {});
    assert Goes(ENTITIES, TABLE, a, 1);
    forall d | Child(ENTITIES, d, 0)
      ensures d == 1
    {
      assert d in ENTITIES.Keys;
    }
    assert Turn(ENTITIES, TABLE, a, 0, 1) && 1 in ReachedUnder(ENTITIES, TABLE, a, 1);
    ParticipantFree(a);
  }

  lemma RefusedTakes(a: Answers)
    requires a == Answers({0}, {}, ORDER)
    ensures var w := Called(ATTACHED.w, PARTICIPANT, a); 0 in w.es && w.es[0].kind == Participant && 1 !in w.es
  {
    SubscriberReached(a);
    AttachedSound();
    NativeRuns.CallTakesExactly(World(ENTITIES, TABLE), NativeRuns.Call(PARTICIPANT, a), 0);
    NativeRuns.CallTakesExactly(World(ENTITIES, TABLE), NativeRuns.Call(PARTICIPANT, a), 1);
    ParticipantStands();
  }

  lemma ParticipantFree(a: Answers)
    requires a.broken == {}
    ensures !Hindered(ENTITIES, TABLE, a.broken, 0)
  {
    Names();
    forall r | RecordOf(ENTITIES, TABLE, r, 0)
      ensures !TABLE[r].deleted
    {
      assert r in TABLE.Keys;
    }
  }

  // ----- a reader whose deletion breaks off -----

  /** The subscriber's session deletes it; the deletion breaks off at the reader. */
  const BREAKING: Move := Detaching(1, true, true, Answers({}, {READER}, ORDER))

  /** The reader's session deletes the reader. */
  const GIVING_UP: Move := Detaching(0, true, true, PLAIN)

  /** The participant's session, its attachment the second of two by now, deletes the participant. */
  const DELETING: Move := Detaching(1, true, true, Answers({}, {}, ORDER))

  const HALF: Table := map[
    PARTICIPANT := Record(Participant, 0, false), SUBSCRIBER := Record(Kind.Unknown, 1, true), READER := Record(Kind.Reader, 2, true)]

  const HALF_RECORDS: map<D.Name, D.Record> := map[
    PARTICIPANT := D.Record(D.Kind.Participant, 1, false, false), SUBSCRIBER := D.Record(D.Kind.Subscriber, 0, true, true),
    READER := D.Record(D.Kind.Reader, 1, false, true)]

  const BROKEN_OFF := Joint(World(ENTITIES, HALF), D.Db(HALF_RECORDS, LINKS))

  lemma BreakingReaches(a: Answers)
    requires a == BREAKING.answers
    ensures Reached(ENTITIES, TABLE, a, 1) == {1, 2} && TakenBy(ENTITIES, TABLE, a, 1) == {} && !Goes(ENTITIES, TABLE, a, 1)
  {
    Names();
    assert RecordOf(ENTITIES, TABLE, READER, 2) && Hindered(ENTITIES, TABLE, a.broken, 2);
    forall r | RecordOf(ENTITIES, TABLE, r, 1)
      ensures r == SUBSCRIBER
    {
      assert r in TABLE.Keys;
    }
    assert !Hindered(ENTITIES, TABLE, a.broken, 1);
    forall d | Child(ENTITIES, d, 1)
      ensures d == 2
    {
      assert d in ENTITIES.Keys;
    }
    assert !Earlier(ORDER, 2, 2);
    assert Turn(ENTITIES, TABLE, a, 1, 2) && 2 in ReachedUnder(ENTITIES, TABLE, a, 2);
    EntitiesFormed();
    ReachedInTree(ENTITIES, TABLE, a, 1);
    assert 2 in Tree(ENTITIES, 1) && 2 in Tree(ENTITIES, 2);
  }

  lemma NothingTaken(es: Domain, refused: set<EntityId>)
    ensures Less(es, {}, refused) == es
  {
    assert NativeDomain.Freed(es, {}, refused) == {};
  }

  lemma HalfRecorded()
    ensures Recorded(TABLE, {READER}, {1, 2}) == HALF
  {
    Names();
    assert HALF.Keys == TABLE.Keys;
    forall r | r in TABLE
      ensures Recorded(TABLE, {READER}, {1, 2})[r] == HALF[r]
    {
      assert r in TABLE.Keys;
    }
  }

  lemma NothingCalled(w: World, r: ResourceId, a: Answers, e: EntityId)
    requires Live(w.rs, r) && Stands(w.es, w.rs, r) && w.rs[r].native == e && TakenBy(w.es, w.rs, a, e) == {}
    ensures Called(w, r, a) == World(w.es, Recorded(w.rs, a.broken, Reached(w.es, w.rs, a, e)))
    ensures !Goes(w.es, w.rs, a, e) ==> !Answer(w, r, a)
  {
    NothingTaken(w.es, a.refused);
  }

  lemma SubscriberStands()
    ensures Live(TABLE, SUBSCRIBER) && Stands(ENTITIES, TABLE, SUBSCRIBER) && TABLE[SUBSCRIBER].native == 1
  {
    Names();
  }

  lemma BreakingCalls()
    ensures Called(ATTACHED.w, SUBSCRIBER, BREAKING.answers) == World(ENTITIES, HALF) && !Answer(ATTACHED.w, SUBSCRIBER, BREAKING.answers)
  {
    BreakingReaches(BREAKING.answers);
    SubscriberStands();
    NothingCalled(ATTACHED.w, SUBSCRIBER, BREAKING.answers, 1);
    HalfRecorded();
  }

  lemma HalfMarked()
    ensures Marked(HALF) == {SUBSCRIBER, READER}
  {
    Names();
    assert HALF.Keys == {PARTICIPANT, SUBSCRIBER, READER};
  }

  lemma BreakingCounts()
    ensures D.Detach(ATTACHED.db, 1, true, D.Around(true, false, {SUBSCRIBER, READER})).db == BROKEN_OFF.db
    ensures LINKS[1].name == SUBSCRIBER && Deletes(ATTACHED.db, 1, true, true)
  {
    Names();
    var d := D.Detach(ATTACHED.db, 1, true, D.Around(true, false, {SUBSCRIBER, READER}));
    assert d.db.records.Keys == HALF_RECORDS.Keys;
    forall r | r in d.db.records
      ensures d.db.records[r] == HALF_RECORDS[r]
    {
      assert r in {PARTICIPANT, SUBSCRIBER, READER};
    }
  }

  lemma BreakingIs()
    ensures Do(NAMES, ATTACHED, BREAKING) == BROKEN_OFF
  {
    BreakingCalls();
    HalfMarked();
    BreakingCounts();
    BreakingBoth(ATTACHED, BREAKING.answers);
    DoesDetach(ATTACHED, 1, BREAKING.answers);
  }

  lemma DoesDetach(j: Joint, k: nat, a: Answers)
    requires k < |j.db.links|
    ensures Do(NAMES, j, Detaching(k, true, true, a)) == DetachBoth(j, k, true, true, a)
  {
  }

  lemma BreakingBoth(j: Joint, a: Answers)
    requires |j.db.links| > 1 && j.db.links[1].name == SUBSCRIBER && Deletes(j.db, 1, true, true)
    requires Called(j.w, SUBSCRIBER, a) == World(ENTITIES, HALF) && !Answer(j.w, SUBSCRIBER, a) && Marked(HALF) == {SUBSCRIBER, READER}
    requires D.Detach(j.db, 1, true, D.Around(true, false, {SUBSCRIBER, READER})).db == BROKEN_OFF.db
    ensures DetachBoth(j, 1, true, true, a) == BROKEN_OFF
  {
  }

  /** Before the deletion that breaks off the participant goes. After it the reader, and with it
      the participant, stays as long as the reader's record does. */
  lemma BrokenOffHoldsParticipant(moves: seq<Move>)
    ensures Exec(NAMES, EMPTY, SETUP) == ATTACHED && Answer(ATTACHED.w, PARTICIPANT, Answers({}, {}, ORDER))
    ensures Do(NAMES, ATTACHED, BREAKING) == BROKEN_OFF && StuckBy(BROKEN_OFF.w, READER, 2)
    ensures NoneRemoves(NAMES, BROKEN_OFF, moves, READER) ==>
              var t := Exec(NAMES, BROKEN_OFF, moves); 0 in t.w.es && forall a :: !Goes(t.w.es, t.w.rs, a, 0)
  {
    AttachedReached();
    AnswersWell();
    BreakingIs();
    StepInv(NAMES, ATTACHED, BREAKING);
    Names();
    if NoneRemoves(NAMES, BROKEN_OFF, moves, READER) {
      StuckWhileRecorded(NAMES, BROKEN_OFF, moves, READER, 2, 0);
    }
  }

  const REMOVED: Table := map[PARTICIPANT := Record(Participant, 0, false), SUBSCRIBER := Record(Kind.Unknown, 1, true)]

  lemma GivingUpIs()
    ensures var t := Do(NAMES, BROKEN_OFF, GIVING_UP);
            && t.w == World(ENTITIES, REMOVED) && t.db.links == [LINKS[1], LINKS[2]]
            && PARTICIPANT in t.db.records && t.db.records[PARTICIPANT] == RECORDS[PARTICIPANT]
  {
    Names();
    assert LINKS[0].name == READER && Deletes(BROKEN_OFF.db, 0, true, true);
    assert Called(BROKEN_OFF.w, READER, PLAIN) == BROKEN_OFF.w && Answer(BROKEN_OFF.w, READER, PLAIN);
    assert HALF - {READER} == REMOVED;
    assert Remove(LINKS, 0) == [LINKS[1], LINKS[2]];
  }

  lemma RemovedGoes(a: Answers)
    requires a == Answers({}, {}, ORDER)
    ensures NativeRuns.Sound(World(ENTITIES, REMOVED)) && Goes(ENTITIES, REMOVED, a, 0)
  {
    Names();
    EntitiesFormed();
    assert REMOVED.Keys == {PARTICIPANT, SUBSCRIBER};
    forall r, x | RecordOf(ENTITIES, REMOVED, r, x)
      ensures r == PARTICIPANT && x == 0
    {
      assert r in REMOVED.Keys;
    }
  }

  /** Once the reader's session has detached from it, the reader's record is removed; then the
      participant's session deletes the participant and all of it. */
  lemma RemovalFreesParticipant()
    ensures var t := Do(NAMES, Do(NAMES, BROKEN_OFF, GIVING_UP), DELETING); 0 !in t.w.es && 1 !in t.w.es && 2 !in t.w.es && PARTICIPANT !in t.w.rs
  {
    Names();
    GivingUpIs();
    var a, w := DELETING.answers, World(ENTITIES, REMOVED);
    RemovedGoes(a);
    TopicUsed(ENTITIES, {});
    assert Live(REMOVED, PARTICIPANT) && Stands(ENTITIES, REMOVED, PARTICIPANT);
    forall x: EntityId | x == 0 || x == 1 || x == 2
      ensures x !in Called(w, PARTICIPANT, a).es
    {
      NativeRuns.GoesTakes(w, NativeRuns.Call(PARTICIPANT, a), x);
      NativeRuns.CallTakesExactly(w, NativeRuns.Call(PARTICIPANT, a), x);
    }
    assert Answer(w, PARTICIPANT, a);
    DeletingIs(Do(NAMES, BROKEN_OFF, GIVING_UP));
  }

  lemma DeletingIs(j: Joint)
    requires j.w == World(ENTITIES, REMOVED) && j.db.links == [LINKS[1], LINKS[2]]
    requires PARTICIPANT in j.db.records && j.db.records[PARTICIPANT] == RECORDS[PARTICIPANT]
    requires Answer(j.w, PARTICIPANT, DELETING.answers)
    ensures var w := Called(j.w, PARTICIPANT, DELETING.answers); Do(NAMES, j, DELETING).w == World(w.es, w.rs - {PARTICIPANT})
  {
    Names();
    assert j.db.links[1].name == PARTICIPANT && Deletes(j.db, 1, true, true);
  }
}
