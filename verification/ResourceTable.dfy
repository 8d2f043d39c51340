/** The resource table and the sessions' attachment lists as the agent changes them in place. */
module ResourceTable {
  import opened SessionState
  import opened ResourceDb

  class Resources {
    var records: map<Name, Record>
    var links: seq<Link>

    constructor ()
      ensures View() == EMPTY
    {
      records, links := map[], [];
    }

    function View(): Db
      reads this
    {
      Db(records, links)
    }

    /** Looks through the attachments for one of the session with the id. */
    method FindAttached(session: SessionId, id: AttachId) returns (k: nat)
      ensures k == Find(links, session, id)
    {
      k := 0;
      while k < |links| && !Is(links[k], session, id)
        invariant k <= |links|
        invariant Find(links, session, id) == k + Find(links[k..], session, id)
      {
        assert links[k..][1..] == links[k + 1..];
        k := k + 1;
      }
    }

    method AttachResource(session: SessionId, id: AttachId, r: Name)
      requires r in records
      modifies this
      ensures View() == Attach(old(View()), session, id, r)
    {
      links := links + [Link(session, id, r, records[r].kind)];
      records := records[r := records[r].(count := records[r].count + 1)];
    }

    /** Detaches attachment `k`; the last one of a resource that is to be deleted takes the
        native entity and the record with it. */
    method DetachResource(k: nat, explicit: bool, e: Around) returns (trouble: Trouble)
      requires k < |links|
      modifies this
      ensures Detached(View(), trouble) == Detach(old(View()), k, explicit, e)
    {
      var r := links[k].name;
      if r !in records {
        return UnknownResource;
      }
      if records[r].count == 0 {
        return ZeroCount;
      }
      if !e.cancelOk {
        return CannotCancel;
      }
      var rec := records[r];
      rec := rec.(count := rec.count - 1);
      rec := rec.(pending := rec.pending || explicit);
      records := records[r := rec];
      if rec.pending && rec.count == 0 {
        if !rec.dead {
          records := MarkDead(records, e.also + {r});
          if !e.nativeOk {
            return NativeFailed;
          }
        }
        records := records - {r};
      }
      links := Remove(links, k);
      return Fine;
    }

    method AnnounceResource(k: nat, u: Upcall) returns (ok: bool)
      requires k < |links|
      modifies this
      ensures Tried(View(), ok) == Announce(old(View()), k, u)
    {
      if !u.enableOk {
        return false;
      }
      if !u.createdOk {
        var _ := DetachResource(k, false, u.detaching);
        return false;
      }
      return true;
    }

    /** Finds or adds the record of a resource. */
    method InsertRecord(r: Name, kind: Kind, byRef: bool, i: Inserting) returns (ok: bool)
      modifies `records
      ensures Inserted(View(), ok) == Insert(old(View()), r, kind, byRef, i)
    {
      if i.Fails? {
        return false;
      }
      if r in records {
        return byRef && !records[r].pending && !records[r].dead;
      }
      records := records[r := Record(Unknown, 0, false, false)];
      if !i.BreaksEarly? {
        records := records[r := Record(kind, 0, false, false)];
      }
      return i.Works?;
    }

    method CreateNewResource(q: Request, i: Inserting, u: Upcall) returns (ok: bool)
      modifies this
      ensures Tried(View(), ok) == CreateNew(old(View()), q, i, u)
    {
      var k := |links|;
      ok := InsertRecord(q.name, q.kind, q.byRef, i);
      if ok {
        if !CanAttach(records[q.name].kind, q.id) {
          return false;
        }
        AttachResource(q.session, q.id, q.name);
        ok := AnnounceResource(k, u);
      }
    }

    /** Creates a resource for a session, or has it use the one attached under the id. */
    method CreateResource(q: Request, i: Inserting, cancelOk: bool, u: Upcall) returns (ok: bool)
      modifies this
      ensures Tried(View(), ok) == Create(old(View()), q, i, cancelOk, u)
    {
      if q.kind.Unknown? {
        return false;
      }
      var k := |links|;
      if q.id != INVALID {
        k := FindAttached(q.session, q.id);
      }
      if k < |links| {
        var l := links[k];
        if l.kind != q.kind || !(q.reuse || q.replace) || l.name !in records {
          return false;
        }
        if !q.reuse || !q.same || !cancelOk {
          return false;
        }
        ok := AnnounceResource(k, u);
      } else {
        ok := CreateNewResource(q, i, u);
      }
    }

    method DeleteResource(session: SessionId, id: AttachId, e: Around) returns (ok: bool)
      modifies this
      ensures View() == Do(old(View()), Step.DeleteResource(session, id, e))
      ensures Find(old(links), session, id) == |old(links)| ==> ok
    {
      var k := FindAttached(session, id);
      ok := true;
      if k < |links| {
        var trouble := DetachResource(k, true, e);
        ok := trouble.Fine?;
      }
    }

    /** Detaches everything a session has attached, until something goes wrong. */
    method CloseSession(session: SessionId, es: nat -> Around) returns (trouble: Trouble)
      modifies this
      ensures Detached(View(), trouble) == DetachAll(old(View()), session, 0, es)
    {
      trouble := Fine;
      var k := 0;
      while k < |links| && trouble.Fine?
        invariant k <= |links|
        invariant DetachAll(old(View()), session, 0, es) == if trouble.Fine? then DetachAll(View(), session, k, es) else Detached(View(), trouble)
        decreases |links| - k, trouble.Fine?
      {
        if links[k].session == session {
          trouble := DetachResource(k, false, es(|links|));
        } else {
          k := k + 1;
        }
      }
    }

    method CleanUpResources(es: nat -> Around) returns (trouble: Trouble)
      modifies this
      ensures Detached(View(), trouble) == CleanUp(old(View()), 0, es)
    {
      trouble := Fine;
      var k := 0;
      while k < |links| && trouble.Fine?
        invariant k <= |links|
        invariant CleanUp(old(View()), 0, es) == if trouble.Fine? then CleanUp(View(), k, es) else Detached(View(), trouble)
        decreases |links| - k, trouble.Fine?
      {
        var r := links[k].name;
        if r !in records {
          trouble := UnknownResource;
        } else if records[r].dead || (records[r].pending && records[r].count == 0) {
          trouble := DetachResource(k, true, es(|links|));
        } else {
          k := k + 1;
        }
      }
    }

    /** Attaches all live resources to a session, each under its own id, unless attached. */
    method AttachAllResources(session: SessionId, order: seq<Name>, digest: Name -> nat, us: nat -> Upcall) returns (ok: bool)
      modifies this
      ensures Tried(View(), ok) == AttachAll(old(View()), session, order, digest, us)
    {
      ok := true;
      var i := 0;
      while i < |order| && ok
        invariant i <= |order|
        invariant AttachAll(old(View()), session, order, digest, us)
                  == if ok then AttachAll(View(), session, order[i..], digest, us) else Tried(View(), ok)
        decreases |order| - i, ok
      {
        var r := order[i];
        assert order[i..][1..] == order[i + 1..];
        if r in records && !records[r].dead {
          var kind := records[r].kind;
          if kind.Unknown? || kind.Generic? {
            ok := false;
          } else {
            var id := AutoId(r, kind, digest);
            var k := FindAttached(session, id);
            if k == |links| {
              AttachResource(session, id, r);
              ok := AnnounceResource(k, us(|order| - i));
            }
          }
        }
        i := i + 1;
      }
    }
  }
}
