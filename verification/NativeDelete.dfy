/** Deleting a native resource: three mutually recursive operations take a DDS entity and all
    that is contained in it off the DDS domain, and mark the resource records on the way. */
module NativeDelete {
  import opened SessionState
  import opened NativeDomain

  /** What the next entity of a list needs after those before it were dealt with. */
  lemma NextReady(es0: Domain, es: Domain, rs0: Table, rs: Table, an: Answers, log: seq<EntityId>,
                  cs: seq<EntityId>, i: nat, e: EntityId, kind: Kind)
    requires Formed(es0) && Consistent(es0, rs0) && Listed(es0, an.order, cs, e, kind) && i < |cs|
    requires Progress(es0, es, rs0, rs, an, log, Trees(es0, cs[..i]))
    ensures var c := cs[i];
            && Child(es0, c, e) && es0[c].kind == kind && c in es && es[c] == es0[c] && Tree(es, c) == Tree(es0, c)
            && Consistent(es, rs) && Passes(es, rs, an, c) == Passes(es0, rs0, an, c) && Goes(es, rs, an, c) == Goes(es0, rs0, an, c)
            && ReachedUnder(es, rs, an, c) == ReachedUnder(es0, rs0, an, c)
            && Going(es, rs, an, ReachedUnder(es, rs, an, c)) == Going(es0, rs0, an, ReachedUnder(es0, rs0, an, c))
  {
    NextApart(es0, an.order, cs, i, e, kind);
    ApartStays(es0, es, rs0, rs, an, log, Trees(es0, cs[..i]), cs[i]);
    ReachedSame(es0, es, rs0, rs, an, cs[i]);
    ConsistentStays(es0, es, rs0, rs, an, log, Trees(es0, cs[..i]));
  }

  /** Of the first `i` entities of a list those are left that do not go. */
  ghost predicate LeftSoFar(es0: Domain, es: Domain, rs0: Table, an: Answers, cs: seq<EntityId>, i: nat)
    requires i <= |cs|
  {
    forall k :: 0 <= k < i ==> (cs[k] in es <==> !Goes(es0, rs0, an, cs[k]))
  }

  ghost predicate AllPass(es: Domain, rs: Table, an: Answers, cs: seq<EntityId>, n: nat)
    requires n <= |cs|
  {
    forall k :: 0 <= k < n ==> Passes(es, rs, an, cs[k])
  }

  lemma NextLeft(es0: Domain, es1: Domain, es2: Domain, rs0: Table, an: Answers, more: seq<EntityId>, cs: seq<EntityId>, i: nat, e: EntityId, kind: Kind)
    requires Formed(es0) && Listed(es0, an.order, cs, e, kind) && i < |cs| && kind != Topic
    requires Without(es1, es2, Elements(more), an.refused) && Elements(more) <= Tree(es0, cs[i]) && forall c :: c in es1 ==> c in es0 && es1[c] == es0[c]
    requires LeftSoFar(es0, es1, rs0, an, cs, i) && (cs[i] in es2 <==> !Goes(es0, rs0, an, cs[i]))
    ensures LeftSoFar(es0, es2, rs0, an, cs, i + 1)
  {
    NextApart(es0, an.order, cs, i, e, kind);
    forall k | 0 <= k < i
      ensures cs[k] in es2 <==> cs[k] in es1
    {
      assert cs[k] in cs && cs[k] in Tree(es0, cs[k]) && cs[k] in Trees(es0, cs[..i]);
    }
  }

  lemma NextDone(es0: Domain, es1: Domain, es2: Domain, rs0: Table, rs1: Table, rs2: Table, an: Answers,
                 log: seq<EntityId>, more: seq<EntityId>, cs: seq<EntityId>, i: nat, e: EntityId, kind: Kind)
    requires Formed(es0) && Listed(es0, an.order, cs, e, kind) && i < |cs| && kind != Topic
    requires Progress(es0, es1, rs0, rs1, an, log, Trees(es0, cs[..i])) && Progress(es1, es2, rs1, rs2, an, more, Tree(es0, cs[i]))
    ensures Progress(es0, es2, rs0, rs2, an, log + more, Trees(es0, cs[..i + 1]))
    ensures LeftSoFar(es0, es1, rs0, an, cs, i) && (cs[i] in es2 <==> !Goes(es0, rs0, an, cs[i])) ==> LeftSoFar(es0, es2, rs0, an, cs, i + 1)
  {
    ProgressThen(es0, es1, es2, rs0, rs1, rs2, an, log, more, Trees(es0, cs[..i]), Tree(es0, cs[i]));
    TreesSnoc(es0, cs[..i], cs[i]);
    assert cs[..i] + [cs[i]] == cs[..i + 1];
    if LeftSoFar(es0, es1, rs0, an, cs, i) && (cs[i] in es2 <==> !Goes(es0, rs0, an, cs[i])) {
      NextLeft(es0, es1, es2, rs0, an, more, cs, i, e, kind);
    }
  }

  // ----- the entity itself -----

  lemma AllGone(es0: Domain, es: Domain, gone: set<EntityId>, refused: set<EntityId>, e: EntityId)
    requires Formed(es0) && Formed(es) && e in es0 && es0[e].kind != Topic && Without(es0, es, gone, refused) && gone <= Tree(es0, e) - {e}
    requires forall c :: !Child(es, c, e)
    ensures gone == Tree(es0, e) - {e}
  {
    forall x | x in Tree(es0, e) - {e}
      ensures x in gone
    {
      var p := es0[x].parent.value;
      assert x in es ==> Contained(es, x);
      assert !Child(es, x, e) && !Child(es, p, e);
    }
  }

  /** With all under an entity gone, nothing is left in it exactly when its topics go too. */
  lemma TopicsLeft(es0: Domain, es: Domain, gone: set<EntityId>, refused: set<EntityId>, e: EntityId)
    requires Formed(es0) && e in es0 && Without(es0, es, gone, refused) && gone == Tree(es0, e) - {e}
    ensures (forall c :: c in es ==> es[c].parent != Some(e)) <==> TopicsGo(es0, refused, e)
  {
    forall t | t in es0 && es0[t].kind == Topic && es0[t].parent == Some(e)
      ensures t in es <==> t in refused || !exists x :: User(es0, x, t) && x in Tree(es0, e)
    {
      assert Contained(es0, t);
      forall x | User(es0, x, t)
        ensures x in gone
      {
        assert Contained(es0, x);
      }
    }
    forall c | c in es && es[c].parent == Some(e)
      ensures es0[c].kind == Topic
    {
      assert Child(es0, c, e) || es0[c].kind == Topic;
    }
    if !TopicsGo(es0, refused, e) {
      var t :| t in es0 && es0[t].kind == Topic && es0[t].parent == Some(e) && !(t !in refused && exists x :: User(es0, x, t) && x in Tree(es0, e));
      assert t in es;
    }
  }

  /** Once its contents were dealt with, an entity can be taken off the domain exactly when all
      of it goes, with its topics. */
  lemma ItselfGoes(es0: Domain, es: Domain, rs0: Table, an: Answers, gone: set<EntityId>, e: EntityId)
    requires Formed(es0) && Formed(es) && e in es0 && es0[e].kind != Topic && !Hindered(es0, rs0, an.broken, e)
    requires Without(es0, es, gone, an.refused) && gone <= Tree(es0, e) - {e}
    requires forall c :: Child(es0, c, e) ==> (c in es <==> !Goes(es0, rs0, an, c))
    ensures e !in an.refused && (forall c :: c in es ==> es[c].parent != Some(e)) <==>
              Goes(es0, rs0, an, e) && TopicsGo(es0, an.refused, e)
    ensures Goes(es0, rs0, an, e) ==> gone == Tree(es0, e) - {e}
  {
    GoesSplits(es0, rs0, an, e);
    if forall c :: Child(es0, c, e) ==> Goes(es0, rs0, an, c) {
      forall c
        ensures !Child(es, c, e)
      {
        if Child(es, c, e) {
          assert Child(es0, c, e);
          assert false;
        }
      }
      AllGone(es0, es, gone, an.refused, e);
      TopicsLeft(es0, es, gone, an.refused, e);
    } else {
      var c :| Child(es0, c, e) && !Goes(es0, rs0, an, c);
      assert c in es && es[c].parent == Some(e);
    }
  }

  /** A deletion that goes comes to the whole tree, and takes it. */
  lemma GoesReachesAll(es: Domain, rs: Table, an: Answers, e: EntityId)
    requires Formed(es) && e in es && es[e].kind != Topic && Goes(es, rs, an, e)
    ensures Reached(es, rs, an, e) == Tree(es, e) && Going(es, rs, an, Tree(es, e)) == Tree(es, e)
  {
    assert e in Tree(es, e);
    forall x | x in Tree(es, e)
      ensures Goes(es, rs, an, x) && !Hindered(es, rs, an.broken, x)
    {
      TreeWithin(es, e, x);
      assert Contained(es, x) && x in Tree(es, x);
    }
    forall p, c | p in Tree(es, e) && Child(es, c, p)
      ensures Turn(es, rs, an, p, c)
    {
      forall d | Child(es, d, p)
        ensures Passes(es, rs, an, d)
      {
        TreeOfChild(es, p, d);
        TreeWithin(es, e, p);
      }
    }
    forall x | x in Tree(es, e)
      ensures x in Reached(es, rs, an, e)
    {
      if x != e {
        TreeSplits(es, e, x);
        var c :| Child(es, c, e) && x in Tree(es, c);
        TreeOfChild(es, e, c);
        assert Turn(es, rs, an, e, c);
        if x != c {
          assert Contained(es, x) && Contained(es, c);
          assert Turn(es, rs, an, c, x);
        }
        assert x in ReachedUnder(es, rs, an, c);
      }
    }
    ReachedInTree(es, rs, an, e);
  }

  lemma ReachedInTree(es: Domain, rs: Table, an: Answers, e: EntityId)
    requires Formed(es) && e in es
    ensures ReachedIn(es, rs, an, e) <= Tree(es, e) - {e}
  {
    forall y | y in ReachedIn(es, rs, an, e)
      ensures y in Tree(es, e) - {e}
    {
      var c :| Turn(es, rs, an, e, c) && y in ReachedUnder(es, rs, an, c);
      TreeOfChild(es, e, c);
      assert y in Tree(es, c);
    }
  }

  lemma ItselfGone(es0: Domain, es1: Domain, es2: Domain, rs0: Table, rs: Table, an: Answers, gone: seq<EntityId>, last: seq<EntityId>, e: EntityId)
    requires e in es0 && Progress(es0, es1, rs0, rs, an, gone, Tree(es0, e) - {e}) && Took(es1, es2, last, an.refused)
    requires last == [] || (last == [e] && NoRecord(rs0, e))
    ensures Progress(es0, es2, rs0, rs, an, gone + last, Tree(es0, e)) && Elements(gone + last) == Elements(gone) + Elements(last)
  {
    assert e in Tree(es0, e) && Elements([e]) == {e} && Elements([]) == {};
    TookThen(es0, es1, es2, gone, last, an.refused);
  }

  lemma NoRecordFree(es: Domain, rs: Table, broken: set<ResourceId>, e: EntityId)
    requires Formed(es) && e in es && es[e].kind != Topic && NoRecord(rs, e)
    ensures !Hindered(es, rs, broken, e) && !Stranded(es, rs, e)
  {
    assert Contained(es, e);
  }

  /** The contents and then the entity make one deletion. */
  lemma ItselfExactly(es: Domain, rs0: Table, rs: Table, an: Answers, gone: seq<EntityId>, last: seq<EntityId>, e: EntityId)
    requires Formed(es) && e in es && es[e].kind != Topic && NoRecord(rs0, e) && Exactly(es, rs0, rs, an, gone, ReachedIn(es, rs0, an, e))
    requires last == if Goes(es, rs0, an, e) && TopicsGo(es, an.refused, e) then [e] else []
    ensures Elements(gone + last) == TakenBy(es, rs0, an, e) && rs == Recorded(rs0, an.broken, Reached(es, rs0, an, e))
  {
    NoRecordFree(es, rs0, an.broken, e);
    ReachedInTree(es, rs0, an, e);
    assert Elements([e]) == {e} && Elements([]) == {};
    assert Elements(gone + last) == Elements(gone) + Elements(last);
    assert Reached(es, rs0, an, e) == {e} + ReachedIn(es, rs0, an, e);
  }

  lemma ItselfDone(es0: Domain, es1: Domain, es2: Domain, rs0: Table, rs: Table, an: Answers, gone: seq<EntityId>, last: seq<EntityId>, e: EntityId)
    requires Formed(es0) && e in es0 && es0[e].kind != Topic && NoRecord(rs0, e)
    requires Progress(es0, es1, rs0, rs, an, gone, Tree(es0, e) - {e}) && Took(es1, es2, last, an.refused)
    requires Exactly(es0, rs0, rs, an, gone, ReachedIn(es0, rs0, an, e))
    requires last == if Goes(es0, rs0, an, e) && TopicsGo(es0, an.refused, e) then [e] else []
    ensures Elements(gone + last) == TakenBy(es0, rs0, an, e) && rs == Recorded(rs0, an.broken, Reached(es0, rs0, an, e))
    ensures Progress(es0, es2, rs0, rs, an, gone + last, Tree(es0, e))
    ensures if last != [] then Elements(gone + last) == Tree(es0, e) else e in es2
  {
    ItselfExactly(es0, rs0, rs, an, gone, last, e);
    ItselfGone(es0, es1, es2, rs0, rs, an, gone, last, e);
    if last != [] {
      GoesReachesAll(es0, rs0, an, e);
    }
  }

  // ----- a record's own mark -----

  /** Both tables hinder the same entities, and leave the same stuck. */
  ghost predicate SameView(es: Domain, rs: Table, rs1: Table, broken: set<ResourceId>) {
    forall x :: Hindered(es, rs1, broken, x) == Hindered(es, rs, broken, x) && Stranded(es, rs1, x) == Stranded(es, rs, x)
  }

  /** All that a deletion comes to and takes depends on no more than that. */
  lemma ViewDecides(es: Domain, rs: Table, rs1: Table, an: Answers, e: EntityId)
    requires SameView(es, rs, rs1, an.broken)
    ensures forall x :: Goes(es, rs1, an, x) == Goes(es, rs, an, x)
    ensures ReachedIn(es, rs1, an, e) == ReachedIn(es, rs, an, e) && Reached(es, rs1, an, e) == Reached(es, rs, an, e)
    ensures TakenBy(es, rs1, an, e) == TakenBy(es, rs, an, e)
  {
    assert forall x :: Passes(es, rs1, an, x) == Passes(es, rs, an, x);
    forall p, c
      ensures Turn(es, rs1, an, p, c) == Turn(es, rs, an, p, c)
    {
    }
    forall c
      ensures ReachedUnder(es, rs1, an, c) == ReachedUnder(es, rs, an, c)
    {
    }
    forall y
      ensures y in ReachedIn(es, rs1, an, e) <==> y in ReachedIn(es, rs, an, e)
    {
    }
  }

  /** Finalizing the record of an entity leaves its deletion as free or as hindered as it was. */
  lemma OwnRecord(es: Domain, rs: Table, an: Answers, id: ResourceId, e: EntityId)
    requires Formed(es) && Consistent(es, rs) && RecordOf(es, rs, id, e) && OfEntity(rs[id]) && !rs[id].deleted && id !in an.broken
    ensures var rs1 := rs[id := Final(rs[id])];
            && Consistent(es, rs1) && NoRecord(rs1, e) && TouchedAmong(rs, rs1, an.broken, {}, {e})
            && !Hindered(es, rs, an.broken, e) && SameView(es, rs, rs1, an.broken)
  {
    var rs1 := rs[id := Final(rs[id])];
    forall r | r in rs1 && OfEntity(rs1[r])
      ensures rs1[r].native != e
    {
      assert r != id && !RecordOf(es, rs, r, e);
    }
    forall r, x | RecordOf(es, rs1, r, x)
      ensures RecordOf(es, rs, r, x) && rs1[r] == rs[r]
    {
      assert Contained(es, x);
    }
    forall r, x | RecordOf(es, rs, r, x) && (rs[r].deleted || r in an.broken)
      ensures RecordOf(es, rs1, r, x) && rs1[r] == rs[r] && x != e
    {
      assert r != id;
    }
  }

  lemma DropTopicFormed(es: Domain, t: EntityId, refused: set<EntityId>)
    requires Formed(es)
    ensures Formed(DropTopic(es, t, refused))
  {
    var es1 := DropTopic(es, t, refused);
    forall c | c in es1
      ensures Contained(es1, c)
    {
      assert Contained(es, c);
    }
    forall x: EntityId, s: EntityId | User(es1, x, s)
      ensures s in es1 && es1[s].kind == Topic && es1[s].parent == es1[es1[x].parent.value].parent
    {
      assert User(es, x, s) && Contained(es, x) && Contained(es1, x);
    }
  }

  /** Taking off an entity that contains nothing any more. */
  lemma TakeOffFormed(es: Domain, e: EntityId)
    requires Formed(es) && e in es && es[e].kind != Topic && forall c :: c in es ==> es[c].parent != Some(e)
    ensures Formed(Off(es, e))
  {
    var es1 := Off(es, e);
    forall c | c in es1
      ensures Contained(es1, c)
    {
      assert Contained(es, c);
    }
    forall x: EntityId, s: EntityId | User(es1, x, s)
      ensures s in es1 && es1[s].kind == Topic && es1[s].parent == es1[es1[x].parent.value].parent
    {
      assert User(es, x, s) && Contained(es, x) && Contained(es1, x);
    }
  }

  /** With the last to use it, and only then, a topic goes that is not refused. */
  lemma FreedByOne(es: Domain, e: EntityId, refused: set<EntityId>)
    requires Formed(es) && e in es && es[e].kind != Topic
    ensures var es1 := Off(es, e);
            Freed(es, {e}, refused) == if es[e].kind.Reader? || es[e].kind.Writer? then es1.Keys - DropTopic(es1, es[e].topic, refused).Keys else {}
  {
    var es1, t := Off(es, e), es[e].topic;
    assert forall x, s :: User(es1, x, s) <==> User(es, x, s) && x != e;
    assert forall s :: s in Freed(es, {e}, refused) ==> User(es, e, s);
    if User(es, e, t) {
      assert LosesUsers(es, t, {e}) <==> forall x :: !User(es1, x, t);
    }
  }

  /** An entity goes, and its topic with it if it was the last to use it. */
  lemma LastUserGone(es: Domain, es2: Domain, e: EntityId, refused: set<EntityId>)
    requires Formed(es) && e in es && es[e].kind != Topic && forall c :: c in es ==> es[c].parent != Some(e)
    requires var es1 := Off(es, e);
             es2 == if es[e].kind.Reader? || es[e].kind.Writer? then DropTopic(es1, es[e].topic, refused) else es1
    ensures Took(es, es2, [e], refused)
  {
    TakeOffFormed(es, e);
    DropTopicFormed(Off(es, e), es[e].topic, refused);
    FreedByOne(es, e, refused);
    assert Elements([e]) == {e};
    assert ContentsFirst(es, [e]) by {
      assert forall c :: !Child(es, c, e);
    }
  }

  // ----- what an entity contains -----

  lemma ChildKinds(es: Domain, e: EntityId)
    requires Formed(es) && e in es
    ensures forall c :: Child(es, c, e) ==>
              match es[e].kind
              case Participant => es[c].kind == Subscriber || es[c].kind == Publisher
              case Publisher => es[c].kind == Writer
              case Subscriber => es[c].kind == Kind.Reader
              case _ => false
  {
    forall c | Child(es, c, e)
      ensures Container(es[c].kind) == es[e].kind && es[e].kind != Other
    {
      assert Contained(es, c) && Contained(es, e);
    }
  }

  /** What the deletion of the contained entities of one kind comes to. */
  ghost function KindReached(es: Domain, rs: Table, an: Answers, e: EntityId, kind: Kind): set<EntityId> {
    set y | y in es && exists c :: TurnOf(es, rs, an, e, c) && es[c].kind == kind && y in ReachedUnder(es, rs, an, c)
  }

  /** The contained entities of one kind were dealt with: that works exactly when each passes,
      and leaves those that do not go. */
  ghost predicate ContainedDone(es0: Domain, es: Domain, rs0: Table, rs: Table, an: Answers, log: seq<EntityId>, e: EntityId, kind: Kind, ok: bool) {
    && Progress(es0, es, rs0, rs, an, log, Under(es0, e, kind))
    && Exactly(es0, rs0, rs, an, log, KindReached(es0, rs0, an, e, kind))
    && (ok <==> forall c :: Child(es0, c, e) && es0[c].kind == kind ==> Passes(es0, rs0, an, c))
    && (ok ==> forall c :: Child(es0, c, e) && es0[c].kind == kind ==> (c in es <==> !Goes(es0, rs0, an, c)))
  }

  ghost function ListReached(es: Domain, rs: Table, an: Answers, cs: seq<EntityId>, i: nat): set<EntityId>
    requires i <= |cs|
  {
    set y | y in es && exists k :: 0 <= k < i && y in ReachedUnder(es, rs, an, cs[k])
  }

  /** The first `i` entities of a list were dealt with; all but the last of them passed. */
  ghost predicate ListSoFar(es0: Domain, es: Domain, rs0: Table, rs: Table, an: Answers, log: seq<EntityId>, cs: seq<EntityId>, i: nat, ok: bool)
    requires i <= |cs|
  {
    && Progress(es0, es, rs0, rs, an, log, Trees(es0, cs[..i])) && LeftSoFar(es0, es, rs0, an, cs, i)
    && Exactly(es0, rs0, rs, an, log, ListReached(es0, rs0, an, cs, i))
    && (ok <==> AllPass(es0, rs0, an, cs, i)) && (i > 0 ==> AllPass(es0, rs0, an, cs, i - 1))
  }

  lemma ListReachedSnoc(es: Domain, rs: Table, an: Answers, cs: seq<EntityId>, i: nat)
    requires i < |cs|
    ensures ListReached(es, rs, an, cs, i + 1) == ListReached(es, rs, an, cs, i) + ReachedUnder(es, rs, an, cs[i])
  {
  }

  /** What a list that was dealt with came to is what its kind comes to. */
  lemma ListReachedAll(es: Domain, rs: Table, an: Answers, cs: seq<EntityId>, i: nat, e: EntityId, kind: Kind, ok: bool)
    requires Listed(es, an.order, cs, e, kind) && i <= |cs| && (ok ==> i == |cs|) && (ok <==> AllPass(es, rs, an, cs, i))
    requires i > 0 ==> AllPass(es, rs, an, cs, i - 1)
    ensures ListReached(es, rs, an, cs, i) == KindReached(es, rs, an, e, kind)
  {
    forall k | 0 <= k < |cs|
      ensures k < i <==> TurnOf(es, rs, an, e, cs[k])
      ensures Child(es, cs[k], e) && es[cs[k]].kind == kind
    {
      assert cs[k] in cs;
      if k < i {
        forall d | Child(es, d, e) && es[d].kind == kind && Earlier(an.order, d, cs[k])
          ensures Passes(es, rs, an, d)
        {
          assert d in cs;
          var j :| 0 <= j < |cs| && cs[j] == d;
        }
      } else {
        assert !Passes(es, rs, an, cs[i - 1]) && cs[i - 1] in cs && Earlier(an.order, cs[i - 1], cs[k]);
      }
    }
    forall y | y in KindReached(es, rs, an, e, kind)
      ensures y in ListReached(es, rs, an, cs, i)
    {
      var c :| TurnOf(es, rs, an, e, c) && es[c].kind == kind && y in ReachedUnder(es, rs, an, c);
      assert c in cs;
      var k :| 0 <= k < |cs| && cs[k] == c;
    }
  }

  lemma NextSoFar(es0: Domain, es1: Domain, es2: Domain, rs0: Table, rs1: Table, rs2: Table, an: Answers,
                  log: seq<EntityId>, more: seq<EntityId>, cs: seq<EntityId>, i: nat, e: EntityId, kind: Kind, ok: bool)
    requires Formed(es0) && Consistent(es0, rs0) && Listed(es0, an.order, cs, e, kind) && i < |cs| && kind != Topic
    requires ListSoFar(es0, es1, rs0, rs1, an, log, cs, i, true)
    requires Progress(es1, es2, rs1, rs2, an, more, Tree(es0, cs[i])) && Exactly(es1, rs1, rs2, an, more, ReachedUnder(es1, rs1, an, cs[i]))
    requires (ok <==> Passes(es0, rs0, an, cs[i])) && (cs[i] in es2 <==> !Goes(es0, rs0, an, cs[i]))
    ensures ListSoFar(es0, es2, rs0, rs2, an, log + more, cs, i + 1, ok)
  {
    NextReady(es0, es1, rs0, rs1, an, log, cs, i, e, kind);
    NextDone(es0, es1, es2, rs0, rs1, rs2, an, log, more, cs, i, e, kind);
    ExactlyThen(es0, es1, rs0, rs1, rs2, an, log, more, ListReached(es0, rs0, an, cs, i), ReachedUnder(es0, rs0, an, cs[i]));
    ListReachedSnoc(es0, rs0, an, cs, i);
  }

  lemma ListStart(es: Domain, rs: Table, an: Answers, cs: seq<EntityId>)
    requires Formed(es)
    ensures ListSoFar(es, es, rs, rs, an, [], cs, 0, true)
  {
    NoProgress(es, rs, an, Trees(es, cs[..0]));
    assert ListReached(es, rs, an, cs, 0) == {} && Recorded(rs, an.broken, {}) == rs && Elements([]) == {};
  }

  lemma ListDone(es0: Domain, es: Domain, rs0: Table, rs: Table, an: Answers, log: seq<EntityId>, cs: seq<EntityId>, i: nat,
                 e: EntityId, kind: Kind, ok: bool)
    requires Formed(es0) && Listed(es0, an.order, cs, e, kind) && i <= |cs| && ListSoFar(es0, es, rs0, rs, an, log, cs, i, ok) && (ok ==> i == |cs|)
    ensures ContainedDone(es0, es, rs0, rs, an, log, e, kind, ok)
  {
    TreesAll(es0, an.order, cs, e, kind);
    ListReachedAll(es0, rs0, an, cs, i, e, kind, ok);
    ProgressMore(es0, es, rs0, rs, an, log, Trees(es0, cs[..i]), Under(es0, e, kind));
    if ok {
      forall c | Child(es0, c, e) && es0[c].kind == kind
        ensures Passes(es0, rs0, an, c) && (c in es <==> !Goes(es0, rs0, an, c))
      {
        assert c in cs;
        var k :| 0 <= k < |cs| && cs[k] == c;
      }
    } else {
      var k :| 0 <= k < i && !Passes(es0, rs0, an, cs[k]);
      assert cs[k] in cs;
    }
  }

  /** An entity of the second kind has its turn, and comes to what, as it would have at first. */
  ghost predicate SecondSame(es0: Domain, es1: Domain, rs0: Table, rs1: Table, an: Answers, e: EntityId, c: EntityId) {
    && TurnOf(es1, rs1, an, e, c) == TurnOf(es0, rs0, an, e, c) && c in es1 && c in es0 && es1[c] == es0[c]
    && ReachedUnder(es1, rs1, an, c) == ReachedUnder(es0, rs0, an, c) <= es1.Keys
    && forall y :: y in ReachedUnder(es0, rs0, an, c) ==> Goes(es1, rs1, an, y) == Goes(es0, rs0, an, y)
  }

  lemma SecondOne(es0: Domain, es1: Domain, rs0: Table, rs1: Table, an: Answers, log: seq<EntityId>, e: EntityId, first: Kind, second: Kind, c: EntityId)
    requires Formed(es0) && e in es0 && es0[e].kind != Topic && first != second
    requires Progress(es0, es1, rs0, rs1, an, log, Under(es0, e, first)) && Child(es0, c, e) && es0[c].kind == second
    requires forall d :: Child(es1, d, e) && es1[d].kind == second <==> Child(es0, d, e) && es0[d].kind == second
    requires forall d :: Child(es0, d, e) && es0[d].kind == second ==> Passes(es1, rs1, an, d) == Passes(es0, rs0, an, d)
    ensures SecondSame(es0, es1, rs0, rs1, an, e, c)
  {
    UnderApart(es0, e, first, c);
    ApartStays(es0, es1, rs0, rs1, an, log, Under(es0, e, first), c);
    ReachedSame(es0, es1, rs0, rs1, an, c);
    assert TurnOf(es1, rs1, an, e, c) == TurnOf(es0, rs0, an, e, c);
  }

  lemma KindReachedSame(es0: Domain, es1: Domain, rs0: Table, rs1: Table, an: Answers, e: EntityId, kind: Kind)
    requires forall c :: Child(es1, c, e) && es1[c].kind == kind <==> Child(es0, c, e) && es0[c].kind == kind
    requires forall c :: Child(es0, c, e) && es0[c].kind == kind ==> SecondSame(es0, es1, rs0, rs1, an, e, c)
    ensures KindReached(es1, rs1, an, e, kind) == KindReached(es0, rs0, an, e, kind)
    ensures Going(es1, rs1, an, KindReached(es0, rs0, an, e, kind)) == Going(es0, rs0, an, KindReached(es0, rs0, an, e, kind))
  {
    forall y | y in KindReached(es0, rs0, an, e, kind)
      ensures y in KindReached(es1, rs1, an, e, kind) && Goes(es1, rs1, an, y) == Goes(es0, rs0, an, y)
    {
      var c :| TurnOf(es0, rs0, an, e, c) && es0[c].kind == kind && y in ReachedUnder(es0, rs0, an, c);
      assert SecondSame(es0, es1, rs0, rs1, an, e, c);
    }
    forall y | y in KindReached(es1, rs1, an, e, kind)
      ensures y in KindReached(es0, rs0, an, e, kind)
    {
      var c :| TurnOf(es1, rs1, an, e, c) && es1[c].kind == kind && y in ReachedUnder(es1, rs1, an, c);
      assert SecondSame(es0, es1, rs0, rs1, an, e, c);
    }
  }

  lemma SecondReached(es0: Domain, es1: Domain, rs0: Table, rs1: Table, an: Answers, log: seq<EntityId>, e: EntityId, first: Kind, second: Kind)
    requires Formed(es0) && Consistent(es0, rs0) && e in es0 && es0[e].kind != Topic && first != second
    requires Progress(es0, es1, rs0, rs1, an, log, Under(es0, e, first))
    requires forall c :: Child(es1, c, e) && es1[c].kind == second <==> Child(es0, c, e) && es0[c].kind == second
    requires forall c :: Child(es0, c, e) && es0[c].kind == second ==> Passes(es1, rs1, an, c) == Passes(es0, rs0, an, c)
    ensures KindReached(es1, rs1, an, e, second) == KindReached(es0, rs0, an, e, second)
    ensures Going(es1, rs1, an, KindReached(es0, rs0, an, e, second)) == Going(es0, rs0, an, KindReached(es0, rs0, an, e, second))
  {
    forall c | Child(es0, c, e) && es0[c].kind == second
      ensures SecondSame(es0, es1, rs0, rs1, an, e, c)
    {
      SecondOne(es0, es1, rs0, rs1, an, log, e, first, second, c);
    }
    KindReachedSame(es0, es1, rs0, rs1, an, e, second);
  }

  /** Publishers are come to only once every subscriber passed. */
  lemma KindsReached(es: Domain, rs: Table, an: Answers, e: EntityId)
    requires Formed(es) && e in es && es[e].kind == Participant
    ensures ReachedIn(es, rs, an, e) == KindReached(es, rs, an, e, Subscriber)
              + (if forall d :: Child(es, d, e) && es[d].kind == Subscriber ==> Passes(es, rs, an, d) then KindReached(es, rs, an, e, Publisher) else {})
  {
    ChildKinds(es, e);
  }

  /** The contained entities of one kind dealt with, those of another are as before. */
  lemma SecondKind(es0: Domain, es1: Domain, rs0: Table, rs1: Table, an: Answers, log: seq<EntityId>, e: EntityId, first: Kind, second: Kind)
    requires Formed(es0) && Consistent(es0, rs0) && e in es0 && es0[e].kind != Topic && first != second
    requires Progress(es0, es1, rs0, rs1, an, log, Under(es0, e, first))
    ensures Progress(es0, es1, rs0, rs1, an, log, Tree(es0, e) - {e})
    ensures Consistent(es1, rs1) && e in es1 && es1[e] == es0[e]
    ensures forall c :: Child(es1, c, e) && es1[c].kind == second <==> Child(es0, c, e) && es0[c].kind == second
    ensures forall c :: Child(es0, c, e) && es0[c].kind == second ==>
              && Goes(es1, rs1, an, c) == Goes(es0, rs0, an, c) && Passes(es1, rs1, an, c) == Passes(es0, rs0, an, c)
              && Tree(es1, c) == Tree(es0, c)
    ensures KindReached(es1, rs1, an, e, second) == KindReached(es0, rs0, an, e, second)
    ensures Going(es1, rs1, an, KindReached(es0, rs0, an, e, second)) == Going(es0, rs0, an, KindReached(es0, rs0, an, e, second))
  {
    UnderTree(es0, e, first);
    ProgressMore(es0, es1, rs0, rs1, an, log, Under(es0, e, first), Tree(es0, e) - {e});
    ConsistentStays(es0, es1, rs0, rs1, an, log, Under(es0, e, first));
    forall c | Child(es0, c, e) && es0[c].kind == second
      ensures Child(es1, c, e) && es1[c] == es0[c] && Goes(es1, rs1, an, c) == Goes(es0, rs0, an, c)
      ensures Passes(es1, rs1, an, c) == Passes(es0, rs0, an, c) && Tree(es1, c) == Tree(es0, c)
    {
      UnderApart(es0, e, first, c);
      ApartStays(es0, es1, rs0, rs1, an, log, Under(es0, e, first), c);
    }
    SecondReached(es0, es1, rs0, rs1, an, log, e, first, second);
  }

  lemma OneKind(es0: Domain, es: Domain, rs0: Table, rs: Table, an: Answers, log: seq<EntityId>, e: EntityId, kind: Kind)
    requires Formed(es0) && e in es0 && Progress(es0, es, rs0, rs, an, log, Under(es0, e, kind))
    requires (es0[e].kind == Publisher && kind == Writer) || (es0[e].kind == Subscriber && kind == Kind.Reader)
    ensures Progress(es0, es, rs0, rs, an, log, Tree(es0, e) - {e}) && KindReached(es0, rs0, an, e, kind) == ReachedIn(es0, rs0, an, e)
  {
    ChildKinds(es0, e);
    UnderTree(es0, e, kind);
    ProgressMore(es0, es, rs0, rs, an, log, Under(es0, e, kind), Tree(es0, e) - {e});
  }

  /** Subscribers and then publishers: together they make one deletion of contents, and the
      second part brings no subscriber back and takes none. */
  lemma BothKinds(es0: Domain, es1: Domain, es2: Domain, rs0: Table, rs1: Table, rs2: Table, an: Answers,
                  a: seq<EntityId>, b: seq<EntityId>, e: EntityId)
    requires Formed(es0) && e in es0 && es0[e].kind == Participant
    requires Progress(es0, es1, rs0, rs1, an, a, Tree(es0, e) - {e}) && Progress(es1, es2, rs1, rs2, an, b, Under(es1, e, Publisher))
    requires e in es1 && es1[e] == es0[e]
    ensures Progress(es0, es2, rs0, rs2, an, a + b, Tree(es0, e) - {e})
    ensures forall c :: Child(es0, c, e) && es0[c].kind == Subscriber ==> (c in es2 <==> c in es1)
  {
    UnderTree(es1, e, Publisher);
    assert Tree(es1, e) <= Tree(es0, e);
    ProgressThen(es0, es1, es2, rs0, rs1, rs2, an, a, b, Tree(es0, e) - {e}, Under(es1, e, Publisher));
    ProgressMore(es0, es2, rs0, rs2, an, a + b, Tree(es0, e) - {e} + Under(es1, e, Publisher), Tree(es0, e) - {e});
    forall c | Child(es0, c, e) && es0[c].kind == Subscriber && c in es1
      ensures c in es2
    {
      assert Child(es1, c, e) && c in Tree(es1, c);
      UnderApart(es1, e, Publisher, c);
    }
  }

  /** What an entity contains was dealt with: that works exactly when each passes, and leaves
      those that do not go. */
  ghost predicate ContentsDone(es0: Domain, es: Domain, rs0: Table, rs: Table, an: Answers, log: seq<EntityId>, e: EntityId, ok: bool) {
    && Progress(es0, es, rs0, rs, an, log, Tree(es0, e) - {e}) && Exactly(es0, rs0, rs, an, log, ReachedIn(es0, rs0, an, e))
    && (ok <==> forall c :: Child(es0, c, e) ==> Passes(es0, rs0, an, c))
    && (ok ==> forall c :: Child(es0, c, e) ==> (c in es <==> !Goes(es0, rs0, an, c)))
  }

  lemma OneKindDone(es0: Domain, es: Domain, rs0: Table, rs: Table, an: Answers, log: seq<EntityId>, e: EntityId, kind: Kind, ok: bool)
    requires Formed(es0) && e in es0 && ContainedDone(es0, es, rs0, rs, an, log, e, kind, ok)
    requires (es0[e].kind == Publisher && kind == Writer) || (es0[e].kind == Subscriber && kind == Kind.Reader)
    ensures ContentsDone(es0, es, rs0, rs, an, log, e, ok)
  {
    OneKind(es0, es, rs0, rs, an, log, e, kind);
    ChildKinds(es0, e);
  }

  lemma NoPublisherReached(es: Domain, rs: Table, an: Answers, e: EntityId)
    requires Formed(es) && e in es && es[e].kind == Participant
    requires exists d :: Child(es, d, e) && es[d].kind == Subscriber && !Passes(es, rs, an, d)
    ensures ReachedIn(es, rs, an, e) == KindReached(es, rs, an, e, Subscriber)
    ensures exists c :: Child(es, c, e) && !Passes(es, rs, an, c)
  {
    KindsReached(es, rs, an, e);
  }

  lemma FirstKindFailed(es0: Domain, es: Domain, rs0: Table, rs: Table, an: Answers, log: seq<EntityId>, e: EntityId)
    requires Formed(es0) && Consistent(es0, rs0) && e in es0 && es0[e].kind == Participant
    requires ContainedDone(es0, es, rs0, rs, an, log, e, Subscriber, false)
    ensures ContentsDone(es0, es, rs0, rs, an, log, e, false)
  {
    UnderTree(es0, e, Subscriber);
    ProgressMore(es0, es, rs0, rs, an, log, Under(es0, e, Subscriber), Tree(es0, e) - {e});
    NoPublisherReached(es0, rs0, an, e);
  }

  lemma BothKindsDone(es0: Domain, es1: Domain, es2: Domain, rs0: Table, rs1: Table, rs2: Table, an: Answers,
                      a: seq<EntityId>, b: seq<EntityId>, e: EntityId, ok: bool)
    requires Formed(es0) && Consistent(es0, rs0) && e in es0 && es0[e].kind == Participant
    requires ContainedDone(es0, es1, rs0, rs1, an, a, e, Subscriber, true) && ContainedDone(es1, es2, rs1, rs2, an, b, e, Publisher, ok)
    ensures ContentsDone(es0, es2, rs0, rs2, an, a + b, e, ok)
  {
    SecondKind(es0, es1, rs0, rs1, an, a, e, Subscriber, Publisher);
    KindsReached(es0, rs0, an, e);
    BothKinds(es0, es1, es2, rs0, rs1, rs2, an, a, b, e);
    ExactlyThen(es0, es1, rs0, rs1, rs2, an, a, b, KindReached(es0, rs0, an, e, Subscriber), KindReached(es0, rs0, an, e, Publisher));
    BothLeft(es0, es1, es2, rs0, rs1, an, e, ok);
  }

  lemma BothLeft(es0: Domain, es1: Domain, es2: Domain, rs0: Table, rs1: Table, an: Answers, e: EntityId, ok: bool)
    requires Formed(es0) && e in es0 && es0[e].kind == Participant
    requires forall c :: Child(es1, c, e) && es1[c].kind == Publisher <==> Child(es0, c, e) && es0[c].kind == Publisher
    requires forall c :: Child(es0, c, e) && es0[c].kind == Publisher ==>
               Goes(es1, rs1, an, c) == Goes(es0, rs0, an, c) && Passes(es1, rs1, an, c) == Passes(es0, rs0, an, c)
    requires forall c :: Child(es0, c, e) && es0[c].kind == Subscriber ==> Passes(es0, rs0, an, c) && (c in es1 <==> !Goes(es0, rs0, an, c)) && (c in es2 <==> c in es1)
    requires ok <==> forall c :: Child(es1, c, e) && es1[c].kind == Publisher ==> Passes(es1, rs1, an, c)
    requires ok ==> forall c :: Child(es1, c, e) && es1[c].kind == Publisher ==> (c in es2 <==> !Goes(es1, rs1, an, c))
    ensures ok <==> forall c :: Child(es0, c, e) ==> Passes(es0, rs0, an, c)
    ensures ok ==> forall c :: Child(es0, c, e) ==> (c in es2 <==> !Goes(es0, rs0, an, c))
  {
    ChildKinds(es0, e);
  }

  lemma ContainedHindered(es: Domain, rs: Table, an: Answers, e: EntityId)
    requires Formed(es) && e in es && exists c :: Child(es, c, e) && !Passes(es, rs, an, c)
    ensures !Goes(es, rs, an, e)
  {
    GoesSplits(es, rs, an, e);
  }

  lemma MarkOnly(es: Domain, rs: Table, id: ResourceId)
    requires Consistent(es, rs) && id in rs
    ensures Consistent(es, rs[id := rs[id].(deleted := true)])
    ensures NoneStale(es, rs) ==> NoneStale(es, rs[id := rs[id].(deleted := true)])
  {
    var rs1 := rs[id := rs[id].(deleted := true)];
    assert forall r, x :: RecordOf(es, rs1, r, x) ==> RecordOf(es, rs, r, x);
  }

  lemma MarkFinal(es: Domain, rs: Table, id: ResourceId)
    requires Formed(es) && Consistent(es, rs) && id in rs
    ensures Consistent(es, rs[id := Final(rs[id])])
    ensures NoneStale(es, rs) ==> NoneStale(es, rs[id := Final(rs[id])])
  {
    var rs1 := rs[id := Final(rs[id])];
    forall r, x | RecordOf(es, rs1, r, x)
      ensures RecordOf(es, rs, r, x)
    {
      assert Contained(es, x);
    }
  }

  lemma DropTopicKeeps(es: Domain, rs: Table, t: EntityId, refused: set<EntityId>)
    requires Formed(es) && Consistent(es, rs)
    ensures Formed(DropTopic(es, t, refused)) && Consistent(DropTopic(es, t, refused), rs)
    ensures NoneStale(es, rs) ==> NoneStale(DropTopic(es, t, refused), rs)
  {
    DropTopicFormed(es, t, refused);
    assert forall r, x :: RecordOf(DropTopic(es, t, refused), rs, r, x) ==> RecordOf(es, rs, r, x);
  }

  /** The record is finalized and then its entity deleted. */
  lemma RecordFirst(es0: Domain, es: Domain, rs0: Table, rs1: Table, rs2: Table, an: Answers, log: seq<EntityId>, id: ResourceId, e: EntityId)
    requires e in es0 && id in rs0 && rs1 == rs0[id := Final(rs0[id])] && Consistent(es0, rs1)
    requires TouchedAmong(rs0, rs1, an.broken, {}, {e}) && Progress(es0, es, rs1, rs2, an, log, Tree(es0, e))
    ensures Progress(es0, es, rs0, rs2, an, log, Tree(es0, e)) && Consistent(es, rs2) && rs2[id] == Final(rs0[id])
    ensures NoneStale(es0, rs0) ==> NoneStale(es, rs2)
    ensures Elements(log) == Tree(es0, e) ==> rs2 == Finalized(rs0, Elements(log))
  {
    TouchedThen(rs0, rs1, rs2, an.broken, {}, Elements(log), {e}, Tree(es0, e));
    ConsistentStays(es0, es, rs1, rs2, an, log, Tree(es0, e));
    assert {} + Elements(log) == Elements(log) && e in Tree(es0, e) && {e} + Tree(es0, e) == Tree(es0, e);
    assert Touched(rs1[id], rs2[id], id in an.broken);
    if NoneStale(es0, rs0) {
      NoneStaleStays(es0, es, rs0, rs2, an, log, Tree(es0, e));
    }
    if Elements(log) == Tree(es0, e) {
      AllFinalized(es0, es, rs0, rs2, an, log);
    }
  }

  lemma LessIs(es0: Domain, es: Domain, gone: set<EntityId>, refused: set<EntityId>)
    requires Without(es0, es, gone, refused)
    ensures es == Less(es0, gone, refused)
  {
  }

  lemma OwnRecorded(rs0: Table, broken: set<ResourceId>, reached: set<EntityId>, id: ResourceId)
    requires Live(rs0, id) && OfEntity(rs0[id]) && id !in broken && rs0[id].native in reached
    ensures Recorded(rs0[id := Final(rs0[id])], broken, reached) == Recorded(rs0, broken, reached)
  {
  }

  /** Seen from before its record was finalized, the deletion is the specified one. */
  lemma CallIs(es0: Domain, es: Domain, rs0: Table, rs1: Table, rs2: Table, an: Answers, log: seq<EntityId>, id: ResourceId, e: EntityId)
    requires Live(rs0, id) && Stands(es0, rs0, id) && rs0[id].native == e && id !in an.broken && rs1 == rs0[id := Final(rs0[id])]
    requires SameView(es0, rs0, rs1, an.broken) && Took(es0, es, log, an.refused)
    requires Elements(log) == TakenBy(es0, rs1, an, e) && rs2 == Recorded(rs1, an.broken, Reached(es0, rs1, an, e))
    ensures World(es, rs2) == Called(World(es0, rs0), id, an)
  {
    ViewDecides(es0, rs0, rs1, an, e);
    LessIs(es0, es, Elements(log), an.refused);
    OwnRecorded(rs0, an.broken, Reached(es0, rs0, an, e), id);
  }

  /** A call on a broken record comes no further than the record. */
  lemma BrokenIs(es: Domain, rs: Table, an: Answers, id: ResourceId)
    requires Formed(es) && Consistent(es, rs) && Live(rs, id) && Stands(es, rs, id) && id in an.broken
    ensures World(es, rs[id := rs[id].(deleted := true)]) == Called(World(es, rs), id, an) && !Answer(World(es, rs), id, an)
    ensures TakenBy(es, rs, an, rs[id].native) == {}
  {
    var e := rs[id].native;
    assert RecordOf(es, rs, id, e) && Hindered(es, rs, an.broken, e) && e in Tree(es, e);
    assert TakenBy(es, rs, an, e) == {};
    assert Freed(es, {}, an.refused) == {};
    assert Less(es, {}, an.refused) == es;
    forall r | r in rs && OfEntity(rs[r]) && rs[r].native == e
      ensures r == id
    {
      assert RecordOf(es, rs, r, e);
    }
  }

  /** Of a contained entity the deletion comes to no more than what it contains itself. */
  lemma UnderIsReached(es: Domain, rs: Table, an: Answers, e: EntityId)
    requires Formed(es) && e in es && es[e].kind != Topic && es[e].kind != Participant
    ensures ReachedUnder(es, rs, an, e) == Reached(es, rs, an, e)
    ensures forall x :: x in Reached(es, rs, an, e) ==> x in es && es[x].kind != Topic
  {
    assert Contained(es, e);
    forall y, c | Turn(es, rs, an, e, c) && y in es
      ensures y in ReachedUnder(es, rs, an, c) <==> y == c
    {
      ChildKinds(es, e);
      ChildKinds(es, c);
    }
    forall y | y in es
      ensures y in ReachedIn(es, rs, an, e) <==> Turn(es, rs, an, e, y)
    {
      if Turn(es, rs, an, e, y) {
        assert y in ReachedUnder(es, rs, an, y);
      }
    }
  }

  /** A record that is stuck hides its entity. */
  lemma StuckIs(es: Domain, rs: Table, an: Answers, r: ResourceId, e: EntityId)
    requires Formed(es) && Consistent(es, rs) && e in es && es[e].kind != Topic && RecordOf(es, rs, r, e) && rs[r].deleted
    ensures Exactly(es, rs, rs, an, [], Reached(es, rs, an, e))
  {
    assert Contained(es, e) && e in Tree(es, e) && Hindered(es, rs, an.broken, e);
    forall q | q in rs && OfEntity(rs[q]) && rs[q].native == e
      ensures q == r
    {
      assert RecordOf(es, rs, q, e);
    }
    assert Elements([]) == {};
  }

  /** Deleting a contained entity through its record is what the deletion comes to. */
  lemma FoundIs(es: Domain, rs: Table, rs2: Table, an: Answers, r: ResourceId, e: EntityId, gone: seq<EntityId>)
    requires Formed(es) && Consistent(es, rs) && e in es && es[e].kind != Topic && es[e].kind != Participant && RecordOf(es, rs, r, e)
    requires rs2 == Called(World(es, rs), r, an).rs && (rs[r].deleted ==> gone == [])
    requires Live(rs, r) && Stands(es, rs, r) ==> Elements(gone) == TakenBy(es, rs, an, e)
    ensures Exactly(es, rs, rs2, an, gone, ReachedUnder(es, rs, an, e))
  {
    UnderIsReached(es, rs, an, e);
    assert Contained(es, e);
    if rs[r].deleted {
      StuckIs(es, rs, an, r, e);
    } else {
      Search(es, rs, an, e);
    }
  }

  /** What the search for the record of a contained entity comes to. */
  lemma Search(es: Domain, rs: Table, an: Answers, e: EntityId)
    requires Formed(es) && Consistent(es, rs) && e in es && es[e].kind != Topic && es[e].kind != Participant
    ensures TopicsGo(es, an.refused, e) && e in Tree(es, e)
    ensures (forall r :: !RecordOf(es, rs, r, e)) ==> NoRecord(rs, e) && !Stranded(es, rs, e)
    ensures forall r :: RecordOf(es, rs, r, e) ==> OfEntity(rs[r]) && (Stranded(es, rs, e) <==> rs[r].deleted)
    ensures forall r :: RecordOf(es, rs, r, e) && (rs[r].deleted || r in an.broken) ==> !Goes(es, rs, an, e)
    ensures ReachedUnder(es, rs, an, e) == Reached(es, rs, an, e)
    ensures forall x :: x in Reached(es, rs, an, e) ==> es[x].kind != Topic
  {
    UnderIsReached(es, rs, an, e);
    assert Contained(es, e) && e in Tree(es, e);
    assert forall t :: t in es ==> Contained(es, t);
    forall r | RecordOf(es, rs, r, e) && (rs[r].deleted || r in an.broken)
      ensures Hindered(es, rs, an.broken, e)
    {
    }
    if forall r :: !RecordOf(es, rs, r, e) {
      forall r | r in rs
        ensures !(OfEntity(rs[r]) && rs[r].native == e)
      {
        assert !RecordOf(es, rs, r, e);
      }
    }
  }

  /** Entities picked at rising places of the order are in that order. */
  lemma InOrder(es: Domain, order: seq<EntityId>, cs: seq<EntityId>, places: seq<nat>, e: EntityId, kind: Kind)
    requires Lists(order, es) && |places| == |cs| && forall k :: 0 <= k < |cs| ==> places[k] < |order| && order[places[k]] == cs[k]
    requires forall j, k :: 0 <= j < k < |cs| ==> places[j] < places[k]
    requires forall j :: 0 <= j < |order| ==> (order[j] in cs <==> Child(es, order[j], e) && es[order[j]].kind == kind)
    ensures Listed(es, order, cs, e, kind)
  {
    forall c
      ensures c in cs <==> Child(es, c, e) && es[c].kind == kind
    {
      if c in cs {
        var k :| 0 <= k < |cs| && cs[k] == c;
        assert order[places[k]] == c;
      }
      if c in es {
        assert c in Elements(order);
        var j :| 0 <= j < |order| && order[j] == c;
      }
    }
    forall i, j | 0 <= i < |cs| && 0 <= j < |cs|
      ensures i < j <==> Earlier(order, cs[i], cs[j])
    {
      if i < j {
        assert order[places[i]] == cs[i] && order[places[j]] == cs[j];
      }
    }
  }

  lemma NothingContained(es: Domain, rs: Table, an: Answers, e: EntityId)
    requires Formed(es) && e in es && es[e].kind != Participant && es[e].kind != Publisher && es[e].kind != Subscriber
    ensures ContentsDone(es, es, rs, rs, an, [], e, true)
  {
    ChildKinds(es, e);
    NoProgress(es, rs, an, Tree(es, e) - {e});
    assert ReachedIn(es, rs, an, e) == {} && Elements([]) == {};
  }

  // ----- the operations -----

  class NativeEntities {
    var entities: Domain
    var records: Table

    constructor (entities: Domain, records: Table)
      ensures this.entities == entities && this.records == records
    {
      this.entities, this.records := entities, records;
    }

    /** The contained entities of one kind, as the DDS domain lists them. */
    method ListContained(kind: Kind, e: EntityId, answers: Answers) returns (cs: seq<EntityId>)
      requires kind != Topic && Lists(answers.order, entities)
      ensures Listed(entities, answers.order, cs, e, kind)
    {
      var order := answers.order;
      ghost var places: seq<nat> := [];
      cs := [];
      for i := 0 to |order|
        invariant |places| == |cs| && forall k :: 0 <= k < |cs| ==> places[k] < i && order[places[k]] == cs[k]
        invariant forall j, k :: 0 <= j < k < |cs| ==> places[j] < places[k]
        invariant forall j :: 0 <= j < i ==> (order[j] in cs <==> Child(entities, order[j], e) && entities[order[j]].kind == kind)
      {
        var c := order[i];
        if c in entities && entities[c].kind == kind && entities[c].parent == Some(e) {
          cs, places := cs + [c], places + [i];
          assert cs[|cs| - 1] == c;
        }
      }
      InOrder(entities, order, cs, places, e, kind);
    }

    /** The domain lets an entity go unless it refuses to or something is still contained. */
    method TakeOff(e: EntityId, answers: Answers) returns (ok: bool)
      requires e in entities
      modifies `entities
      ensures ok <==> e !in answers.refused && forall c :: c in old(entities) ==> old(entities)[c].parent != Some(e)
      ensures entities == if ok then Off(old(entities), e) else old(entities)
    {
      ok := e !in answers.refused && forall c :: c in entities ==> entities[c].parent != Some(e);
      if ok {
        entities := Off(entities, e);
      }
    }

    /** A topic goes unless it is refused or still in use; a failure is let pass. */
    method DeleteTopic(t: EntityId, answers: Answers)
      modifies `entities
      ensures entities == DropTopic(old(entities), t, answers.refused)
    {
      if t in entities && entities[t].kind == Topic && t !in answers.refused
         && forall x :: x in entities ==> !User(entities, x, t) {
        entities := Off(entities, t);
      }
    }

    /** Takes an entity off the domain and, after a reader or writer, its topic. */
    method DeleteItself(kind: Kind, e: EntityId, answers: Answers) returns (ok: bool, ghost last: seq<EntityId>)
      requires Formed(entities) && e in entities && entities[e].kind == kind && kind != Topic
      modifies `entities
      ensures ok <==> e !in answers.refused && forall c :: c in old(entities) ==> old(entities)[c].parent != Some(e)
      ensures last == (if ok then [e] else []) && Took(old(entities), entities, last, answers.refused)
    {
      NoProgress(entities, records, answers, {});
      var topic := entities[e].topic;
      ok := TakeOff(e, answers);
      last := if ok then [e] else [];
      if ok {
        if kind.Reader? || kind.Writer? {
          DeleteTopic(topic, answers);
        }
        LastUserGone(old(entities), entities, e, answers.refused);
      }
    }

    /** Looks for the record of a contained entity: through it if there is one, else directly,
        the entity is deleted. A record that is stuck hides the entity: nothing is deleted, and
        no error given. */
    method FindContainedAndDelete(kind: Kind, e: EntityId, answers: Answers) returns (ok: bool, ghost gone: seq<EntityId>)
      requires Formed(entities) && Consistent(entities, records) && Lists(answers.order, entities)
      requires e in entities && entities[e].kind == kind && kind != Topic && kind != Participant
      modifies this
      ensures ok <==> old(Passes(entities, records, answers, e))
      ensures Exactly(old(entities), old(records), records, answers, gone, old(ReachedUnder(entities, records, answers, e)))
      ensures Progress(old(entities), entities, old(records), records, answers, gone, old(Tree(entities, e)))
      ensures e in entities <==> !old(Goes(entities, records, answers, e))
      decreases Rank(kind), 3
    {
      Search(entities, records, answers, e);
      var found := set r | r in records && records[r].kind == kind && records[r].native == e;
      assert forall r :: r in found <==> RecordOf(entities, records, r, e);
      if found != {} {
        var r :| r in found;
        ok, gone := DeleteResource(r, answers);
        FoundIs(old(entities), old(records), records, answers, r, e, gone);
      } else {
        ok, gone := DeleteEntity(kind, e, answers);
      }
    }

    /** Deletes the next of a list of contained entities. */
    method DeleteNext(kind: Kind, ghost e: EntityId, answers: Answers, ghost es0: Domain, ghost rs0: Table, list: seq<EntityId>, i: nat,
                      ghost before: seq<EntityId>)
      returns (ok: bool, ghost gone: seq<EntityId>)
      requires Formed(es0) && Consistent(es0, rs0) && kind != Topic && kind != Participant && Listed(es0, answers.order, list, e, kind) && i < |list|
      requires Lists(answers.order, entities)
      requires ListSoFar(es0, entities, rs0, records, answers, before, list, i, true)
      modifies this
      ensures ListSoFar(es0, entities, rs0, records, answers, gone, list, i + 1, ok)
      decreases Rank(kind), 4
    {
      ghost var es1, rs1 := entities, records;
      NextReady(es0, entities, rs0, records, answers, before, list, i, e, kind);
      ghost var more;
      ok, more := FindContainedAndDelete(kind, list[i], answers);
      NextSoFar(es0, es1, entities, rs0, rs1, records, answers, before, more, list, i, e, kind, ok);
      gone := before + more;
    }

    /** Deletes the contained entities of one kind, up to the first that gives an error. */
    method DeleteContained(kind: Kind, e: EntityId, answers: Answers) returns (ok: bool, ghost gone: seq<EntityId>)
      requires Formed(entities) && Consistent(entities, records) && kind != Topic && kind != Participant && Lists(answers.order, entities)
      modifies this
      ensures ContainedDone(old(entities), entities, old(records), records, answers, gone, e, kind, ok)
      decreases Rank(kind), 5
    {
      ghost var es0, rs0 := entities, records;
      var list := ListContained(kind, e, answers);
      ok, gone := true, [];
      ListStart(es0, rs0, answers, list);
      var i := 0;
      while i < |list| && ok
        invariant i <= |list|
        invariant ListSoFar(es0, entities, rs0, records, answers, gone, list, i, ok)
      {
        ok, gone := DeleteNext(kind, e, answers, es0, rs0, list, i, gone);
        i := i + 1;
      }
      ListDone(es0, entities, rs0, records, answers, gone, list, i, e, kind, ok);
    }

    /** Deletes what an entity contains: of a participant the subscribers and then the
        publishers, of those the readers or writers. */
    method DeleteContents(kind: Kind, e: EntityId, answers: Answers) returns (ok: bool, ghost gone: seq<EntityId>)
      requires Formed(entities) && Consistent(entities, records) && e in entities && entities[e].kind == kind && kind != Topic
      requires Lists(answers.order, entities)
      modifies this
      ensures ContentsDone(old(entities), entities, old(records), records, answers, gone, e, ok)
      decreases Rank(kind), 0
    {
      ghost var es0, rs0 := entities, records;
      match kind {
        case Participant =>
          ok, gone := DeleteContained(Subscriber, e, answers);
          if ok {
            ghost var es1, rs1, first := entities, records, gone;
            SecondKind(es0, es1, rs0, rs1, answers, first, e, Subscriber, Publisher);
            ghost var more;
            ok, more := DeleteContained(Publisher, e, answers);
            gone := first + more;
            BothKindsDone(es0, es1, entities, rs0, rs1, records, answers, first, more, e, ok);
          } else {
            FirstKindFailed(es0, entities, rs0, records, answers, gone, e);
          }
        case Publisher =>
          ok, gone := DeleteContained(Writer, e, answers);
          OneKindDone(es0, entities, rs0, records, answers, gone, e, Writer, ok);
        case Subscriber =>
          ok, gone := DeleteContained(Kind.Reader, e, answers);
          OneKindDone(es0, entities, rs0, records, answers, gone, e, Kind.Reader, ok);
        case _ =>
          ok, gone := true, [];
          NothingContained(es0, rs0, answers, e);
      }
    }

    /** Deletes what an entity contains and then the entity; of a reader or writer, the topic
        after it. That works exactly when all of it goes, and of a participant every topic with
        some reader or writer. */
    method DeleteEntity(kind: Kind, e: EntityId, answers: Answers) returns (ok: bool, ghost gone: seq<EntityId>)
      requires Formed(entities) && Consistent(entities, records) && NoRecord(records, e)
      requires e in entities && entities[e].kind == kind && kind != Topic && Lists(answers.order, entities)
      modifies this
      ensures Elements(gone) == old(TakenBy(entities, records, answers, e))
      ensures records == Recorded(old(records), answers.broken, old(Reached(entities, records, answers, e)))
      ensures ok <==> old(Goes(entities, records, answers, e)) && old(TopicsGo(entities, answers.refused, e))
      ensures Progress(old(entities), entities, old(records), records, answers, gone, old(Tree(entities, e)))
      ensures if ok then Elements(gone) == old(Tree(entities, e)) else e in entities
      decreases Rank(kind), 1
    {
      ghost var es0, rs0 := entities, records;
      ok, gone := DeleteContents(kind, e, answers);
      ghost var es1, last := entities, [];
      NoRecordFree(es0, rs0, answers.broken, e);
      if ok {
        ItselfGoes(es0, es1, rs0, answers, Elements(gone), e);
        ok, last := DeleteItself(kind, e, answers);
      } else {
        ContainedHindered(es0, rs0, answers, e);
        NoProgress(es1, records, answers, {});
      }
      ItselfDone(es0, es1, entities, rs0, records, answers, gone, last, e);
      gone := gone + last;
    }

    /** Marks a record and deletes the entity it was made for, if that is still there. */
    method DeleteResource(id: ResourceId, answers: Answers) returns (ok: bool, ghost gone: seq<EntityId>)
      requires Formed(entities) && Consistent(entities, records) && Lists(answers.order, entities)
      modifies this
      ensures World(entities, records) == Called(old(World(entities, records)), id, answers) && (ok <==> Answer(old(World(entities, records)), id, answers))
      ensures Formed(entities) && Consistent(entities, records) && (old(NoneStale(entities, records)) ==> NoneStale(entities, records))
      ensures !old(Live(records, id)) ==> ok && entities == old(entities) && records == old(records) && gone == []
      ensures old(Live(records, id)) && Fails(old(records), id, answers) ==>
                !ok && entities == old(entities) && records == old(records)[id := old(records)[id].(deleted := true)] && gone == []
      ensures old(Live(records, id)) && !Fails(old(records), id, answers) && !Stands(old(entities), old(records), id) ==>
                ok && records == old(records)[id := Final(old(records)[id])] && gone == []
                && entities == if old(records)[id].kind == Topic then DropTopic(old(entities), old(records)[id].native, answers.refused)
                               else old(entities)
      ensures old(Live(records, id)) && Stands(old(entities), old(records), id) ==>
                Elements(gone) == TakenBy(old(entities), old(records), answers, old(records)[id].native)
      ensures old(Live(records, id)) && !Fails(old(records), id, answers) && Stands(old(entities), old(records), id) ==>
                var e := old(records)[id].native;
                && (ok <==> old(Goes(entities, records, answers, e)) && old(TopicsGo(entities, answers.refused, e)))
                && Progress(old(entities), entities, old(records), records, answers, gone, old(Tree(entities, e)))
                && records[id] == Final(old(records)[id])
                && (if ok then Elements(gone) == old(Tree(entities, e)) && records == Finalized(old(records), Elements(gone)) else e in entities)
      decreases if id in records then Rank(records[id].kind) else 0, 2
    {
      ok, gone := true, [];
      if id !in records || records[id].deleted {
        return;
      }
      var kind, native := records[id].kind, records[id].native;
      ghost var es0, rs0 := entities, records;
      if kind == Unknown || (kind != Other && id in answers.broken) {
        MarkOnly(es0, rs0, id);
        if Stands(es0, rs0, id) {
          BrokenIs(es0, rs0, answers, id);
        }
        assert Elements([]) == {};
        records := records[id := records[id].(deleted := true)];
        return false, [];
      }
      MarkFinal(es0, rs0, id);
      records := records[id := Final(records[id])];
      if kind != Other && native in entities && entities[native].kind == kind {
        if kind == Topic {
          DeleteTopic(native, answers);
          DropTopicKeeps(es0, records, native, answers.refused);
        } else {
          OwnRecord(es0, rs0, answers, id, native);
          ViewDecides(es0, rs0, records, answers, native);
          ghost var rs1 := records;
          ok, gone := DeleteEntity(kind, native, answers);
          RecordFirst(es0, entities, rs0, rs1, records, answers, gone, id, native);
          CallIs(es0, entities, rs0, rs1, records, answers, gone, id, native);
        }
      } else if kind == Topic {
        assert DropTopic(es0, native, answers.refused) == es0;
      }
    }
  }
}
