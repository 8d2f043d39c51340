/** What the two loops over the resource table come to: the clean-up leaves exactly the attachments
    to live resources, and the automatic attachment covers every live resource. */
module ResourceSweeps {
  import opened SessionState
  import opened ResourceDb

  predicate Alive(records: map<Name, Record>, r: Name) { r in records && !records[r].dead }

  /** Attachments have only gone, and none to a live resource. */
  ghost predicate LiveKept(db: Db, d: Db) {
    && (forall l :: l in d.links ==> l in db.links)
    && (forall l :: l in db.links && Alive(db.records, l.name) ==> l in d.links)
  }

  /** Records have only gone, and no live one; none has come to life or died. */
  ghost predicate FlagsKept(db: Db, d: Db) {
    && (forall r :: r in d.records ==> r in db.records && d.records[r].dead == db.records[r].dead)
    && (forall r :: Alive(db.records, r) ==> r in d.records)
  }

  /** The record of a dead resource is left only if nothing was attached to it. */
  ghost predicate DeadGone(db: Db, d: Db) {
    forall r :: r in d.records && d.records[r].dead ==> Count(db.links, r) == 0
  }

  lemma DetachDeadFlags(db: Db, k: nat, e: Around)
    requires k < |db.links| && db.links[k].name in db.records && db.records[db.links[k].name].dead
    ensures var d := Detach(db, k, true, e); d.trouble.Fine? ==> d.db.links == Remove(db.links, k) && FlagsKept(db, d.db)
    ensures var d := Detach(db, k, true, e); !d.trouble.Fine? ==> d.db == db
  {
  }

  lemma DetachDead(db: Db, k: nat, e: Around)
    requires Exact(db) && k < |db.links| && db.records[db.links[k].name].dead
    ensures var d := Detach(db, k, true, e);
            && Exact(d.db) && (d.trouble.Fine? || d.trouble.CannotCancel?)
            && (d.trouble.Fine? ==> d.db.links == Remove(db.links, k) && FlagsKept(db, d.db))
            && (!d.trouble.Fine? ==> d.db == db)
            && (d.trouble.Fine? && db.links[k].name in d.db.records ==> Count(d.db.links, db.links[k].name) > 0)
  {
    DetachDeadFlags(db, k, e);
    DetachExactly(db, k, true, e);
    DeletionRemembered(db, k, true, e);
  }

  /** The first `k` attachments have been looked at: they are to live resources. */
  ghost predicate LookedAt(db: Db, k: nat) {
    k <= |db.links| && forall j :: 0 <= j < k ==> Alive(db.records, db.links[j].name)
  }

  lemma DetachedLookedAt(db: Db, k: nat, d: Db)
    requires LookedAt(db, k) && k < |db.links| && !Alive(db.records, db.links[k].name)
    requires d.links == Remove(db.links, k) && FlagsKept(db, d)
    ensures LookedAt(d, k) && LiveKept(db, d)
  {
    RemoveMembers(db.links, k);
    assert forall j :: 0 <= j < k ==> d.links[j] == db.links[j];
  }

  lemma DetachedGone(db: Db, k: nat, d: Db, e: Db)
    requires k < |db.links| && d.links == Remove(db.links, k) && FlagsKept(d, e) && DeadGone(d, e)
    requires db.links[k].name in d.records ==> Count(d.links, db.links[k].name) > 0
    requires db.links[k].name in d.records ==> d.records[db.links[k].name].dead
    ensures DeadGone(db, e)
  {
    CountsRemove(db.links, k);
  }

  lemma KeptAlong(db: Db, d: Db, e: Db)
    requires LiveKept(db, d) && FlagsKept(db, d) && LiveKept(d, e) && FlagsKept(d, e)
    ensures LiveKept(db, e) && FlagsKept(db, e)
  {
    forall r | Alive(db.records, r)
      ensures Alive(d.records, r)
    {
    }
  }

  ghost predicate Cleaned(db: Db, d: Db) {
    LiveKept(db, d) && FlagsKept(db, d) && DeadGone(db, d) && LookedAt(d, |d.links|)
  }

  lemma CleanedAlong(db: Db, k: nat, d: Db, e: Db)
    requires k < |db.links| && d.links == Remove(db.links, k) && LiveKept(db, d) && FlagsKept(db, d) && Cleaned(d, e)
    requires db.links[k].name in d.records ==> d.records[db.links[k].name].dead && Count(d.links, db.links[k].name) > 0
    ensures Cleaned(db, e)
  {
    KeptAlong(db, d, e);
    DetachedGone(db, k, d, e);
  }

  lemma NothingDead(db: Db)
    requires Exact(db) && LookedAt(db, |db.links|)
    ensures Cleaned(db, db)
  {
    forall r | r in db.records && db.records[r].dead
      ensures Count(db.links, r) == 0
    {
    }
  }

  lemma DetachReady(db: Db, k: nat, e: Around)
    requires Exact(db) && LookedAt(db, k) && k < |db.links| && db.records[db.links[k].name].dead
    ensures var d := Detach(db, k, true, e);
            && (d.trouble.Fine? || d.trouble.CannotCancel?)
            && (d.trouble.Fine? ==>
                  && Exact(d.db) && LookedAt(d.db, k) && d.db.links == Remove(db.links, k)
                  && forall r: Db :: Cleaned(d.db, r) ==> Cleaned(db, r))
  {
    DetachDead(db, k, e);
    var d := Detach(db, k, true, e);
    if d.trouble.Fine? {
      DetachedLookedAt(db, k, d.db);
      forall r: Db | Cleaned(d.db, r)
        ensures Cleaned(db, r)
      {
        CleanedAlong(db, k, d.db, r);
      }
    }
  }

  lemma {:induction false} CleanUpLeaves(db: Db, k: nat, es: nat -> Around)
    requires Exact(db) && LookedAt(db, k)
    ensures var d := CleanUp(db, k, es);
            (d.trouble.Fine? || d.trouble.CannotCancel?) && (d.trouble.Fine? ==> Cleaned(db, d.db))
    decreases |db.links| - k
  {
    if k == |db.links| {
      NothingDead(db);
    } else if db.records[db.links[k].name].dead {
      DetachReady(db, k, es(|db.links|));
      var d := Detach(db, k, true, es(|db.links|));
      if d.trouble.Fine? {
        CleanUpLeaves(d.db, k, es);
      }
    } else {
      CleanUpLeaves(db, k + 1, es);
    }
  }

  /** A clean-up from exact counts is stopped only by a read that cannot be cancelled. Otherwise
      the attachments left are exactly those to live resources, and the record of every dead
      resource that had an attachment is gone. */
  lemma CleanedUp(db: Db, es: nat -> Around)
    requires Exact(db)
    ensures var d := CleanUp(db, 0, es);
            && (d.trouble.Fine? || d.trouble.CannotCancel?)
            && (d.trouble.Fine? ==>
                  && (forall l :: l in d.db.links <==> l in db.links && Alive(db.records, l.name))
                  && forall r :: r in db.records && db.records[r].dead && Count(db.links, r) > 0 ==> r !in d.db.records)
  {
    CleanUpLeaves(db, 0, es);
    var d := CleanUp(db, 0, es);
    if d.trouble.Fine? {
      forall l | l in d.db.links
        ensures Alive(db.records, l.name)
      {
        var j :| 0 <= j < |d.db.links| && d.db.links[j] == l;
        assert Alive(d.db.records, d.db.links[j].name);
      }
    }
  }

  // ----- attaching to everything -----

  predicate HasEntity(kind: Kind) { !kind.Unknown? && !kind.Generic? }

  /** The attachments from `n` on are the first ones under their ids, each to a live resource of
      the order under the id of its name and kind. */
  ghost predicate AutoAttached(db: Db, links: seq<Link>, n: nat, session: SessionId, order: seq<Name>, digest: Name -> nat) {
    forall j :: n <= j < |links| ==>
      var l := links[j];
      && l.name in order && Alive(db.records, l.name) && l.kind == db.records[l.name].kind
      && Is(l, session, AutoId(l.name, l.kind, digest)) && Find(links, session, l.id) == j
  }

  /** Every live resource of the order has a DDS entity, and the session an attachment under its
      id. */
  ghost predicate AllCovered(db: Db, links: seq<Link>, session: SessionId, order: seq<Name>, digest: Name -> nat) {
    forall r :: r in order && Alive(db.records, r) ==>
      HasEntity(db.records[r].kind) && Find(links, session, AutoId(r, db.records[r].kind, digest)) < |links|
  }

  /** Records keep their kinds and what has become of them. */
  predicate SameRecords(db: Db, d: Db) {
    && d.records.Keys == db.records.Keys
    && forall r :: r in db.records ==> d.records[r].kind == db.records[r].kind && d.records[r].dead == db.records[r].dead
  }

  lemma FindPrefix(links: seq<Link>, more: seq<Link>, session: SessionId, id: AttachId)
    requires links <= more
    ensures Find(links, session, id) < |links| ==> Find(more, session, id) == Find(links, session, id)
    ensures Find(links, session, id) == |links| ==> Find(more, session, id) >= |links|
  {
  }

  lemma AttachedFirst(db: Db, session: SessionId, order: seq<Name>, digest: Name -> nat, links: seq<Link>)
    requires order != [] && Alive(db.records, order[0])
    requires var id := AutoId(order[0], db.records[order[0]].kind, digest);
             && Find(db.links, session, id) == |db.links|
             && db.links + [Link(session, id, order[0], db.records[order[0]].kind)] <= links
    requires AutoAttached(db, links, |db.links| + 1, session, order[1..], digest)
    ensures AutoAttached(db, links, |db.links|, session, order, digest)
    ensures Find(links, session, AutoId(order[0], db.records[order[0]].kind, digest)) == |db.links|
  {
    var n := |db.links|;
    var id := AutoId(order[0], db.records[order[0]].kind, digest);
    var l := Link(session, id, order[0], db.records[order[0]].kind);
    assert links[n] == (db.links + [l])[n] == l;
    assert db.links <= links;
    FindPrefix(db.links, links, session, id);
  }

  /** What the automatic attachment to the resources of the order comes to. */
  ghost predicate Covers(db: Db, d: Db, session: SessionId, order: seq<Name>, digest: Name -> nat) {
    && db.links <= d.links && SameRecords(db, d)
    && AutoAttached(db, d.links, |db.links|, session, order, digest)
    && AllCovered(db, d.links, session, order, digest)
  }

  lemma SkippedCovers(db: Db, d: Db, session: SessionId, order: seq<Name>, digest: Name -> nat)
    requires order != [] && Covers(db, d, session, order[1..], digest)
    requires Alive(db.records, order[0]) ==>
               HasEntity(db.records[order[0]].kind)
               && Find(db.links, session, AutoId(order[0], db.records[order[0]].kind, digest)) < |db.links|
    ensures Covers(db, d, session, order, digest)
  {
    if Alive(db.records, order[0]) {
      FindPrefix(db.links, d.links, session, AutoId(order[0], db.records[order[0]].kind, digest));
    }
  }

  lemma SameCovered(db: Db, a: Db, links: seq<Link>, n: nat, session: SessionId, order: seq<Name>, digest: Name -> nat)
    requires SameRecords(db, a)
    ensures AutoAttached(a, links, n, session, order, digest) ==> AutoAttached(db, links, n, session, order, digest)
    ensures AllCovered(a, links, session, order, digest) ==> AllCovered(db, links, session, order, digest)
  {
    assert forall r :: Alive(a.records, r) <==> Alive(db.records, r);
  }

  lemma AttachedCovers(db: Db, d: Db, session: SessionId, order: seq<Name>, digest: Name -> nat)
    requires order != [] && Alive(db.records, order[0]) && HasEntity(db.records[order[0]].kind)
    requires var id := AutoId(order[0], db.records[order[0]].kind, digest);
             Find(db.links, session, id) == |db.links| && Covers(Attach(db, session, id, order[0]), d, session, order[1..], digest)
    ensures Covers(db, d, session, order, digest)
  {
    var id := AutoId(order[0], db.records[order[0]].kind, digest);
    var a := Attach(db, session, id, order[0]);
    assert SameRecords(db, a);
    SameCovered(db, a, d.links, |db.links| + 1, session, order[1..], digest);
    AttachedFirst(db, session, order, digest, d.links);
    assert db.links <= a.links;
    assert Find(d.links, session, id) == |db.links|;
  }

  /** An automatic attachment that goes through adds to the attachments there were, and to nothing
      but live resources, each under the id of its name; after it the session has an attachment
      under the id of every live resource of the order. One live resource without a DDS entity
      makes it fail. */
  lemma {:induction false} AttachAllCovers(db: Db, session: SessionId, order: seq<Name>, digest: Name -> nat, us: nat -> Upcall)
    ensures var t := AttachAll(db, session, order, digest, us); t.ok ==> Covers(db, t.db, session, order, digest)
    decreases |order|
  {
    var t := AttachAll(db, session, order, digest, us);
    if order != [] && t.ok {
      var r := order[0];
      if !Alive(db.records, r) {
        AttachAllCovers(db, session, order[1..], digest, us);
        SkippedCovers(db, t.db, session, order, digest);
      } else {
        var id := AutoId(r, db.records[r].kind, digest);
        if Find(db.links, session, id) < |db.links| {
          AttachAllCovers(db, session, order[1..], digest, us);
          SkippedCovers(db, t.db, session, order, digest);
        } else {
          AttachAllCovers(Attach(db, session, id, r), session, order[1..], digest, us);
          AttachedCovers(db, t.db, session, order, digest);
        }
      }
    }
  }

  /** Two resources are attached under the same id exactly if they are of the same kind and the
      low twelve bits of their digests agree. */
  lemma AutoIdsClash(r: Name, q: Name, k: Kind, k': Kind, digest: Name -> nat)
    ensures AutoId(r, k, digest) == AutoId(q, k', digest) <==> k == k' && digest(r) % 0x1000 == digest(q) % 0x1000
  {
    SameCode(k, k');
    var a, b := digest(r) % 0x1000, digest(q) % 0x1000;
    assert (a * 16 + Code(k)) % 16 == Code(k) && (b * 16 + Code(k')) % 16 == Code(k');
  }

  lemma SameCode(k: Kind, k': Kind)
    ensures Code(k) == Code(k') <==> k == k'
    ensures Code(k) < 16
  {
  }

  /** After an automatic attachment a live resource of the order has an attachment of its own, unless
      its id was taken: by an earlier attachment of the session, or by another resource of the order
      with the same kind and the same low digest bits. */
  lemma OwnAttachment(db: Db, session: SessionId, order: seq<Name>, digest: Name -> nat, us: nat -> Upcall, r: Name)
    requires AttachAll(db, session, order, digest, us).ok && r in order && Alive(db.records, r)
    requires Find(db.links, session, AutoId(r, db.records[r].kind, digest)) == |db.links|
    requires forall q :: q in order && q != r && Alive(db.records, q) && db.records[q].kind == db.records[r].kind ==>
               digest(q) % 0x1000 != digest(r) % 0x1000
    ensures Link(session, AutoId(r, db.records[r].kind, digest), r, db.records[r].kind) in AttachAll(db, session, order, digest, us).db.links
  {
    AttachAllCovers(db, session, order, digest, us);
    var d := AttachAll(db, session, order, digest, us).db;
    var id := AutoId(r, db.records[r].kind, digest);
    FindPrefix(db.links, d.links, session, id);
    var j := Find(d.links, session, id);
    var l := d.links[j];
    AutoIdsClash(l.name, r, l.kind, db.records[r].kind, digest);
  }

  // ----- who asks for deletion -----

  /** From `db` to `d` no deletion was asked for, and no record went whose deletion nobody had
      asked for. */
  ghost predicate NothingAsked(db: Db, d: Db) {
    && (forall r :: r in d.records ==> r in db.records && d.records[r].pending == db.records[r].pending)
    && (forall r :: r in db.records && !db.records[r].pending ==> r in d.records)
  }

  lemma DetachAsksNothing(db: Db, k: nat, e: Around)
    requires k < |db.links|
    ensures NothingAsked(db, Detach(db, k, false, e).db)
  {
  }

  /** The closing of a session asks for no deletion: it leaves every resource that nobody asked to
      delete, however it goes. */
  lemma {:induction false} CloseAsksNothing(db: Db, session: SessionId, k: nat, es: nat -> Around)
    requires k <= |db.links|
    ensures NothingAsked(db, DetachAll(db, session, k, es).db)
    decreases |db.links| - k
  {
    if k < |db.links| {
      if db.links[k].session != session {
        CloseAsksNothing(db, session, k + 1, es);
      } else {
        DetachAsksNothing(db, k, es(|db.links|));
        var d := Detach(db, k, false, es(|db.links|));
        if d.trouble.Fine? {
          CloseAsksNothing(d.db, session, k, es);
        }
      }
    }
  }

  /** A client's deletion of a resource asks for it: unless the read of it cannot be cancelled the
      attachment goes, or the native deletion failed, and the record is gone or marked; a deletion
      under an id that is not attached changes nothing. */
  lemma DeletionAsks(db: Db, session: SessionId, id: AttachId, e: Around)
    requires Exact(db)
    ensures var k := Find(db.links, session, id);
            var t := Do(db, DeleteResource(session, id, e));
            && (k == |db.links| ==> t == db)
            && (k < |db.links| && !e.cancelOk ==> t == db)
            && (k < |db.links| && e.cancelOk ==>
                  var r := db.links[k].name;
                  && (r in t.records ==> t.records[r].pending)
                  && t.links == (if Miscounts(db, k, true, e) then db.links else Remove(db.links, k)))
  {
    var k := Find(db.links, session, id);
    if k < |db.links| {
      DetachExactly(db, k, true, e);
    }
  }

  // ----- when a creation succeeds -----

  /** A creation comes to announcing an attachment exactly if the resource is of a kind, and either
      its id is attached already, to a live record's resource of that kind, and the request may use
      it as it is; or a record for it can be found by reference or made, and attached under the id. */
  predicate Announces(db: Db, q: Request, i: Inserting, cancelOk: bool) {
    !q.kind.Unknown? &&
    if q.id != INVALID && exists k :: 0 <= k < |db.links| && Is(db.links[k], q.session, q.id) then
      var l := db.links[Find(db.links, q.session, q.id)];
      l.kind == q.kind && q.reuse && q.same && l.name in db.records && cancelOk
    else
      && !i.Fails?
      && if q.name in db.records then
           var rec := db.records[q.name];
           q.byRef && !rec.pending && !rec.dead && !rec.kind.Unknown? && (q.id == INVALID ==> HasEntity(rec.kind))
         else i.Works? && (q.id == INVALID ==> HasEntity(q.kind))
  }

  /** A creation succeeds exactly if it comes so far and both upcalls go well; then the attachment
      is there, the one before it or a new one at the end, and one that does not come so far leaves
      the attachments as they were. */
  lemma CreatesExactly(db: Db, q: Request, i: Inserting, cancelOk: bool, u: Upcall)
    ensures var t := Create(db, q, i, cancelOk, u);
            && (t.ok <==> Announces(db, q, i, cancelOk) && u.enableOk && u.createdOk)
            && (!Announces(db, q, i, cancelOk) ==> t.db.links == db.links)
            && (t.ok ==> t.db.links == if Place(db, q) < |db.links| then db.links
                                       else db.links + [Link(q.session, q.id, q.name, t.db.records[q.name].kind)])
            && (t.ok && Place(db, q) == |db.links| ==>
                  q.name in t.db.records
                  && t.db.records[q.name].count == (if q.name in db.records then db.records[q.name].count else 0) + 1)
  {
    if q.id != INVALID {
      var k := Find(db.links, q.session, q.id);
      assert k < |db.links| <==> exists k :: 0 <= k < |db.links| && Is(db.links[k], q.session, q.id);
    }
  }
}
