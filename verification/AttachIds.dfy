/** The ids of attachments: each of its attachment's kind, and no two alike in a session. */
module AttachIds {
  import opened SessionState
  import opened ResourceDb

  /** The id of an attachment is valid, and one for its kind. */
  predicate Fits(l: Link) { l.id != INVALID && IdFits(l.id, l.kind) }

  ghost predicate Apart(links: seq<Link>) {
    forall j, k :: 0 <= j < k < |links| && links[j].session == links[k].session ==> links[j].id != links[k].id
  }

  ghost predicate IdsSound(links: seq<Link>) {
    (forall k :: 0 <= k < |links| ==> Fits(links[k])) && Apart(links)
  }

  lemma FitsIfKind(l: Link)
    ensures Fits(l) <==> IdFits(l.id, l.kind)
  {
  }

  lemma AppendApart(links: seq<Link>, l: Link)
    requires Apart(links) && Find(links, l.session, l.id) == |links|
    ensures Apart(links + [l])
  {
    forall j | 0 <= j < |links| && links[j].session == l.session
      ensures links[j].id != l.id
    {
      assert !Is(links[j], l.session, l.id);
    }
  }

  lemma AppendSound(links: seq<Link>, l: Link)
    requires IdsSound(links) && IdFits(l.id, l.kind) && Find(links, l.session, l.id) == |links|
    ensures IdsSound(links + [l])
  {
    FitsIfKind(l);
    AppendApart(links, l);
  }

  lemma DetachSound(db: Db, k: nat, explicit: bool, e: Around)
    requires IdsSound(db.links) && k < |db.links|
    ensures IdsSound(Detach(db, k, explicit, e).db.links)
  {
    var links := Remove(db.links, k);
    assert forall j :: 0 <= j < |links| ==> links[j] == db.links[if j < k then j else j + 1];
  }

  lemma {:induction false} DetachAllSound(db: Db, session: SessionId, k: nat, es: nat -> Around)
    requires IdsSound(db.links) && k <= |db.links|
    ensures IdsSound(DetachAll(db, session, k, es).db.links)
    decreases |db.links| - k
  {
    if k < |db.links| {
      if db.links[k].session != session {
        DetachAllSound(db, session, k + 1, es);
      } else {
        var d := Detach(db, k, false, es(|db.links|));
        DetachSound(db, k, false, es(|db.links|));
        if d.trouble.Fine? {
          DetachAllSound(d.db, session, k, es);
        }
      }
    }
  }

  lemma {:induction false} CleanUpSound(db: Db, k: nat, es: nat -> Around)
    requires IdsSound(db.links) && k <= |db.links|
    ensures IdsSound(CleanUp(db, k, es).db.links)
    decreases |db.links| - k
  {
    if k < |db.links| && db.links[k].name in db.records {
      var rec := db.records[db.links[k].name];
      if rec.dead || (rec.pending && rec.count == 0) {
        var d := Detach(db, k, true, es(|db.links|));
        DetachSound(db, k, true, es(|db.links|));
        if d.trouble.Fine? {
          CleanUpSound(d.db, k, es);
        }
      } else {
        CleanUpSound(db, k + 1, es);
      }
    }
  }

  lemma {:induction false} AttachAllSound(db: Db, session: SessionId, order: seq<Name>, digest: Name -> nat, us: nat -> Upcall)
    requires IdsSound(db.links)
    ensures IdsSound(AttachAll(db, session, order, digest, us).db.links)
    decreases |order|
  {
    if order != [] {
      var r := order[0];
      if r !in db.records || db.records[r].dead {
        AttachAllSound(db, session, order[1..], digest, us);
      } else {
        var kind := db.records[r].kind;
        var id := AutoId(r, kind, digest);
        if Find(db.links, session, id) < |db.links| {
          AttachAllSound(db, session, order[1..], digest, us);
        } else if !kind.Unknown? && !kind.Generic? {
          AppendSound(db.links, Link(session, id, r, kind));
          var a := Attach(db, session, id, r);
          DetachSound(a, |db.links|, false, us(|order|).detaching);
          if Announce(a, |db.links|, us(|order|)).ok {
            AttachAllSound(a, session, order[1..], digest, us);
          }
        }
      }
    }
  }

  // ----- creation requests -----

  /** A request by reference names a live record of another kind. */
  predicate Clash(db: Db, q: Request) {
    q.byRef && q.name in db.records && !db.records[q.name].pending && !db.records[q.name].dead && db.records[q.name].kind != q.kind
  }

  /** The kind of the record the request comes upon, or else makes. */
  function KindFound(db: Db, q: Request): Kind {
    if q.name in db.records then db.records[q.name].kind else q.kind
  }

  /** The request comes as far as a new attachment. */
  predicate Attaches(db: Db, q: Request, i: Inserting) {
    && Place(db, q) == |db.links| && !q.kind.Unknown? && !i.Fails? && CanAttach(KindFound(db, q), q.id)
    && (if q.name in db.records then q.byRef && !db.records[q.name].pending && !db.records[q.name].dead else i.Works?)
  }

  /** The attachment is not taken back. */
  predicate Stays(u: Upcall) { !u.enableOk || u.createdOk || !u.detaching.cancelOk }

  /** The new attachment's id is not for the kind its record has. */
  predicate Misfits(db: Db, step: Step) {
    step.CreateResource? && Attaches(db, step.q, step.i) && Stays(step.u) && !IdFits(step.q.id, KindFound(db, step.q))
  }

  /** What a creation request leaves of the attachments. */
  lemma CreateLinks(db: Db, q: Request, i: Inserting, cancelOk: bool, u: Upcall)
    ensures var links := Create(db, q, i, cancelOk, u).db.links;
            if Place(db, q) == |db.links| then
              links == if Attaches(db, q, i) && Stays(u) then db.links + [Link(q.session, q.id, q.name, KindFound(db, q))] else db.links
            else links == db.links || links == Detach(db, Place(db, q), false, u.detaching).db.links
  {
    if Place(db, q) == |db.links| && Attaches(db, q, i) {
      var s := Insert(db, q.name, q.kind, q.byRef, i);
      var a := Attach(s.db, q.session, q.id, q.name);
      assert a.links == db.links + [Link(q.session, q.id, q.name, KindFound(db, q))];
      assert Remove(a.links, |db.links|) == db.links;
    }
  }

  lemma CreateExactlySound(db: Db, q: Request, i: Inserting, cancelOk: bool, u: Upcall)
    requires IdsSound(db.links)
    ensures IdsSound(Create(db, q, i, cancelOk, u).db.links) <==> !Misfits(db, CreateResource(q, i, cancelOk, u))
  {
    CreateLinks(db, q, i, cancelOk, u);
    if Place(db, q) < |db.links| {
      DetachSound(db, Place(db, q), false, u.detaching);
    } else if Attaches(db, q, i) && Stays(u) {
      var l := Link(q.session, q.id, q.name, KindFound(db, q));
      assert (db.links + [l])[|db.links|] == l;
      FitsIfKind(l);
      if IdFits(q.id, l.kind) {
        AppendSound(db.links, l);
      }
    }
  }

  /** With an id of the requested kind, a misfit is a clash of kinds. */
  lemma MisfitIsClash(db: Db, q: Request, i: Inserting)
    requires IdFits(q.id, q.kind) && Attaches(db, q, i)
    ensures !IdFits(q.id, KindFound(db, q)) <==> Clash(db, q)
  {
  }

  // ----- runs -----

  lemma StepExactlySound(db: Db, step: Step)
    requires IdsSound(db.links)
    ensures IdsSound(Do(db, step).links) <==> !Misfits(db, step)
  {
    match step {
      case CreateResource(q, i, cancelOk, u) => CreateExactlySound(db, q, i, cancelOk, u);
      case DeleteResource(session, id, e) =>
        if Find(db.links, session, id) < |db.links| {
          DetachSound(db, Find(db.links, session, id), true, e);
        }
      case CloseSession(session, es) => DetachAllSound(db, session, 0, es);
      case CleanUpResources(es) => CleanUpSound(db, 0, es);
      case OpenSession(session, order, digest, us) => AttachAllSound(db, session, order, digest, us);
    }
  }

  /** The state after the first `n` steps of a run. */
  function After(steps: seq<Step>, n: nat): Db
    requires n <= |steps|
  {
    Exec(EMPTY, steps[..n])
  }

  lemma {:induction false} ExecSnoc(db: Db, steps: seq<Step>, step: Step)
    ensures Exec(db, steps + [step]) == Do(Exec(db, steps), step)
    decreases |steps|
  {
    if steps == [] {
      assert [] + [step] == [step] && [step][1..] == [];
      assert Exec(db, [step]) == Exec(Do(db, step), []);
    } else {
      assert (steps + [step])[1..] == steps[1..] + [step];
      ExecSnoc(Do(db, steps[0]), steps[1..], step);
    }
  }

  lemma AfterNext(steps: seq<Step>, n: nat)
    requires n < |steps|
    ensures After(steps, n + 1) == Do(After(steps, n), steps[n])
  {
    assert steps[..n + 1] == steps[..n] + [steps[n]];
    ExecSnoc(EMPTY, steps[..n], steps[n]);
  }

  /** The ids are sound all through a run. */
  ghost predicate SoundThroughout(steps: seq<Step>) {
    forall n :: 0 <= n <= |steps| ==> IdsSound(After(steps, n).links)
  }

  lemma {:induction false} SoundSoFar(steps: seq<Step>, n: nat)
    requires n <= |steps| && forall m :: 0 <= m < |steps| ==> !Misfits(After(steps, m), steps[m])
    ensures IdsSound(After(steps, n).links)
  {
    if n > 0 {
      SoundSoFar(steps, n - 1);
      AfterNext(steps, n - 1);
      StepExactlySound(After(steps, n - 1), steps[n - 1]);
    }
  }

  /** Ids are of their attachment's kind, never the invalid one and distinct in their session
      all through a run exactly when none of its creation requests adds a misfit. */
  lemma SoundExactly(steps: seq<Step>)
    ensures SoundThroughout(steps) <==> forall n :: 0 <= n < |steps| ==> !Misfits(After(steps, n), steps[n])
  {
    if SoundThroughout(steps) {
      forall n | 0 <= n < |steps|
        ensures !Misfits(After(steps, n), steps[n])
      {
        AfterNext(steps, n);
        StepExactlySound(After(steps, n), steps[n]);
        assert IdsSound(After(steps, n + 1).links);
      }
    } else {
      var n :| 0 <= n <= |steps| && !IdsSound(After(steps, n).links);
      if forall m :: 0 <= m < |steps| ==> !Misfits(After(steps, m), steps[m]) {
        SoundSoFar(steps, n);
        assert false;
      }
    }
  }

  /** Creation requests come through the XRCE layer, which lets pass only ids of the kind. */
  predicate Checked(steps: seq<Step>) {
    forall n :: 0 <= n < |steps| && steps[n].CreateResource? ==> IdFits(steps[n].q.id, steps[n].q.kind)
  }

  /** The step adds an attachment to a live record of another kind than the one asked for. */
  predicate Mixes(db: Db, step: Step) {
    step.CreateResource? && Attaches(db, step.q, step.i) && Stays(step.u) && Clash(db, step.q)
  }

  /** With each request's id checked, what is left to go wrong is a creation by reference that
      names a live record of another kind; the ids are sound throughout exactly without one. */
  lemma IdsSoundExactly(steps: seq<Step>)
    requires Checked(steps)
    ensures SoundThroughout(steps) <==> forall n :: 0 <= n < |steps| ==> !Mixes(After(steps, n), steps[n])
  {
    SoundExactly(steps);
    forall n | 0 <= n < |steps|
      ensures Misfits(After(steps, n), steps[n]) <==> Mixes(After(steps, n), steps[n])
    {
      var step := steps[n];
      if step.CreateResource? && Attaches(After(steps, n), step.q, step.i) {
        MisfitIsClash(After(steps, n), step.q, step.i);
      }
    }
  }

  const SHARED: Name := "L::P::X"

  const ANNOUNCED := Upcall(true, true, Around(true, true, {}))

  const PUBLISHED: Step := CreateResource(Request(1, 0x13, SHARED, Publisher, true, false, false, false), Works, true, ANNOUNCED)

  const SUBSCRIBED: Step := CreateResource(Request(1, 0x14, SHARED, Subscriber, true, false, false, false), Works, true, ANNOUNCED)

  /** A publisher and a subscriber of the same name in one participant: with both ids checked,
      the creation of the subscriber answers with an attachment to the publisher. */
  lemma TwoKindsOneName()
    ensures var steps := [PUBLISHED, SUBSCRIBED];
            && Checked(steps) && Mixes(After(steps, 1), steps[1]) && Create(After(steps, 1), SUBSCRIBED.q, Works, true, ANNOUNCED).ok
            && After(steps, 2).links == [Link(1, 0x13, SHARED, Publisher), Link(1, 0x14, SHARED, Publisher)]
            && !SoundThroughout(steps)
  {
    var steps := [PUBLISHED, SUBSCRIBED];
    assert After(steps, 0) == EMPTY;
    AfterNext(steps, 0);
    assert After(steps, 1) == Db(map[SHARED := Record(Publisher, 1, false, false)], [Link(1, 0x13, SHARED, Publisher)]);
    AfterNext(steps, 1);
    assert !Is(After(steps, 1).links[0], 1, 0x14);
    assert !Fits(After(steps, 2).links[1]);
  }

  // ----- finding attachments again -----

  /** A creation that succeeds leaves an attachment under the requested id: the one that was
      there, with nothing added, or a new one to the requested resource; it is of the requested
      kind exactly when the request did not come upon a record of another kind. */
  lemma CreatedIsFound(db: Db, q: Request, i: Inserting, cancelOk: bool, u: Upcall)
    requires q.id != INVALID && Create(db, q, i, cancelOk, u).ok
    ensures var t := Create(db, q, i, cancelOk, u).db;
            var k := Find(t.links, q.session, q.id);
            && k < |t.links|
            && (t.links[k].kind == q.kind <==> Place(db, q) < |db.links| || !Clash(db, q))
            && (if Place(db, q) < |db.links| then t == db
                else k == |db.links| && t.links == db.links + [Link(q.session, q.id, q.name, KindFound(db, q))] && !t.records[q.name].dead)
  {
    if Place(db, q) == |db.links| {
      FindLast(db.links, Link(q.session, q.id, q.name, KindFound(db, q)));
    }
  }

  lemma {:induction false} FindLast(links: seq<Link>, l: Link)
    requires Find(links, l.session, l.id) == |links|
    ensures Find(links + [l], l.session, l.id) == |links|
  {
    if links == [] {
      assert [] + [l] == [l];
    } else {
      assert (links + [l])[1..] == links[1..] + [l];
      FindLast(links[1..], l);
    }
  }

  /** With sound ids a lookup finds the one attachment that was asked for. */
  lemma LookupFindsTheOne(links: seq<Link>, k: nat)
    requires IdsSound(links) && k < |links|
    ensures Find(links, links[k].session, links[k].id) == k
  {
    var j := Find(links, links[k].session, links[k].id);
    assert Is(links[k], links[k].session, links[k].id);
  }
}
