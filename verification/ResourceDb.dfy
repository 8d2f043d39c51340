/** Resource records, the attachments of sessions to them, and the count each record keeps of
    its attachments. */
module ResourceDb {
  import opened SessionState

  /** The kinds of resource. Those that have no DDS entity are told apart by the code of their
      XRCE object kind; a record whose creation broke off early has no kind. */
  datatype Kind = Unknown | Participant | Topic | Publisher | Subscriber | Writer | Reader | Generic(code: GenericCode)

  type GenericCode = n: nat | 6 < n < 16 witness 7

  /** Records are found by the reference string alone, whatever their kind. */
  type Name = string

  type SessionId = nat

  type AttachId = nat

  const INVALID: AttachId := 0

  /** A session's attachment to a resource; it is of the kind the record had. */
  datatype Link = Link(session: SessionId, id: AttachId, name: Name, kind: Kind)

  /** `pending` says that some client asked for deletion, `dead` that the native entity is gone;
      the kind of a dead record is not looked at any more. */
  datatype Record = Record(kind: Kind, count: nat, pending: bool, dead: bool)

  datatype Db = Db(records: map<Name, Record>, links: seq<Link>)

  function Code(k: Kind): nat {
    match k
    case Unknown => 0
    case Participant => 1
    case Topic => 2
    case Publisher => 3
    case Subscriber => 4
    case Writer => 5
    case Reader => 6
    case Generic(code) => code
  }

  /** An attachment id says in its low four bits what kind of object it is for. */
  predicate IdFits(id: AttachId, k: Kind) { !k.Unknown? && id % 16 == Code(k) }

  /** How many attachments there are to a resource. */
  function Count(links: seq<Link>, r: Name): (n: nat)
    ensures n > 0 <==> exists k :: 0 <= k < |links| && links[k].name == r
  {
    if links == [] then 0
    else
      var n := Count(links[1..], r);
      assert forall k :: 0 < k < |links| ==> links[k] == links[1..][k - 1];
      (if links[0].name == r then 1 else 0) + n
  }

  predicate Is(l: Link, session: SessionId, id: AttachId) { l.session == session && l.id == id }

  function Find(links: seq<Link>, session: SessionId, id: AttachId): (k: nat)
    ensures k <= |links| && (k < |links| ==> Is(links[k], session, id))
    ensures forall j :: 0 <= j < k ==> !Is(links[j], session, id)
  {
    if links == [] || Is(links[0], session, id) then 0 else 1 + Find(links[1..], session, id)
  }

  // ----- attaching and detaching -----

  function Attach(db: Db, session: SessionId, id: AttachId, r: Name): Db
    requires r in db.records
  {
    var rec := db.records[r];
    Db(db.records[r := rec.(count := rec.count + 1)], db.links + [Link(session, id, r, rec.kind)])
  }

  /** What happens around a detachment: whether a read can be cancelled, whether the native
      entity can be deleted, and which other records that marks dead. */
  datatype Around = Around(cancelOk: bool, nativeOk: bool, also: set<Name>)

  datatype Trouble = Fine | CannotCancel | UnknownResource | ZeroCount | NativeFailed

  datatype Detached = Detached(db: Db, trouble: Trouble)

  function MarkDead(records: map<Name, Record>, also: set<Name>): (m: map<Name, Record>)
    ensures m.Keys == records.Keys
    ensures forall r :: r in records ==> m[r] == records[r].(dead := records[r].dead || r in also)
  {
    map r | r in records :: records[r].(dead := records[r].dead || r in also)
  }

  function Detach(db: Db, k: nat, explicit: bool, e: Around): Detached
    requires k < |db.links|
  {
    var r := db.links[k].name;
    if r !in db.records then Detached(db, UnknownResource)
    else if db.records[r].count == 0 then Detached(db, ZeroCount)
    else if !e.cancelOk then Detached(db, CannotCancel)
    else
      var rec := db.records[r].(count := db.records[r].count - 1, pending := db.records[r].pending || explicit);
      var records := db.records[r := rec];
      if rec.pending && rec.count == 0 then
        var marked := if rec.dead then records else MarkDead(records, e.also + {r});
        if !rec.dead && !e.nativeOk then Detached(Db(marked, db.links), NativeFailed)
        else Detached(Db(marked - {r}, Remove(db.links, k)), Fine)
      else Detached(Db(records, Remove(db.links, k)), Fine)
  }

  // ----- creating -----

  /** What comes of setting up a record: nothing, a record without kind, one with its kind but
      of no use otherwise, or all of it. */
  datatype Inserting = Fails | BreaksEarly | BreaksLate | Works

  datatype Inserted = Inserted(db: Db, ok: bool)

  /** The record for a resource: a new one, or an existing one when the resource is given by
      reference and its record is not on its way out. The kinds are not compared, and an
      insertion that breaks off leaves its record behind. */
  function Insert(db: Db, r: Name, kind: Kind, byRef: bool, i: Inserting): (s: Inserted)
    ensures s.ok ==> r in s.db.records && !s.db.records[r].pending && !s.db.records[r].dead
    ensures s.db.links == db.links
  {
    if i.Fails? then Inserted(db, false)
    else if r in db.records then Inserted(db, byRef && !db.records[r].pending && !db.records[r].dead)
    else Inserted(db.(records := db.records[r := Record(if i.BreaksEarly? then Unknown else kind, 0, false, false)]), i.Works?)
  }

  /** A record without kind has no name to copy either, and only kinds with a DDS entity have
      ids made for them. */
  predicate CanAttach(k: Kind, id: AttachId) { !k.Unknown? && (id == INVALID ==> !k.Generic?) }

  datatype Upcall = Upcall(enableOk: bool, createdOk: bool, detaching: Around)

  datatype Tried = Tried(db: Db, ok: bool)

  /** The attachment is enabled and announced; if its announcement fails it is detached again. */
  function Announce(db: Db, k: nat, u: Upcall): Tried
    requires k < |db.links|
  {
    if !u.enableOk then Tried(db, false)
    else if !u.createdOk then Tried(Detach(db, k, false, u.detaching).db, false)
    else Tried(db, true)
  }

  datatype Request = Request(session: SessionId, id: AttachId, name: Name, kind: Kind, byRef: bool, reuse: bool, replace: bool, same: bool)

  /** Where the attachment is that a request names by its id. */
  function Place(db: Db, q: Request): (k: nat)
    ensures k <= |db.links|
  {
    if q.id == INVALID then |db.links| else Find(db.links, q.session, q.id)
  }

  /** Finds or makes the record, and attaches the session to it. */
  function CreateNew(db: Db, q: Request, i: Inserting, u: Upcall): Tried {
    var s := Insert(db, q.name, q.kind, q.byRef, i);
    if !s.ok || !CanAttach(s.db.records[q.name].kind, q.id) then Tried(s.db, false)
    else Announce(Attach(s.db, q.session, q.id, q.name), |db.links|, u)
  }

  function Create(db: Db, q: Request, i: Inserting, cancelOk: bool, u: Upcall): Tried {
    var k := Place(db, q);
    if q.kind.Unknown? then Tried(db, false)
    else if k < |db.links| then
      var l := db.links[k];
      if l.kind != q.kind || !(q.reuse || q.replace) || l.name !in db.records then Tried(db, false)
      else if !q.reuse || !q.same || !cancelOk then Tried(db, false)
      else Announce(db, k, u)
    else CreateNew(db, q, i, u)
  }

  // ----- over lists -----

  function DetachAll(db: Db, session: SessionId, k: nat, es: nat -> Around): Detached
    requires k <= |db.links|
    decreases |db.links| - k
  {
    if k == |db.links| then Detached(db, Fine)
    else if db.links[k].session != session then DetachAll(db, session, k + 1, es)
    else
      var d := Detach(db, k, false, es(|db.links|));
      if d.trouble.Fine? then DetachAll(d.db, session, k, es) else d
  }

  /** Attachments to dead resources, or to unused ones that are to be deleted, are detached. */
  function CleanUp(db: Db, k: nat, es: nat -> Around): Detached
    requires k <= |db.links|
    decreases |db.links| - k
  {
    if k == |db.links| then Detached(db, Fine)
    else
      var r := db.links[k].name;
      if r !in db.records then Detached(db, UnknownResource)
      else if db.records[r].dead || (db.records[r].pending && db.records[r].count == 0) then
        var d := Detach(db, k, true, es(|db.links|));
        if d.trouble.Fine? then CleanUp(d.db, k, es) else d
      else CleanUp(db, k + 1, es)
  }

  /** The id a resource is attached under by itself: twelve bits of a digest of its name, and
      its kind. */
  function AutoId(r: Name, kind: Kind, digest: Name -> nat): AttachId {
    (digest(r) % 0x1000) * 16 + Code(kind)
  }

  function AttachAll(db: Db, session: SessionId, order: seq<Name>, digest: Name -> nat, us: nat -> Upcall): Tried
    decreases |order|
  {
    if order == [] then Tried(db, true)
    else if order[0] !in db.records || db.records[order[0]].dead then AttachAll(db, session, order[1..], digest, us)
    else
      var kind := db.records[order[0]].kind;
      var id := AutoId(order[0], kind, digest);
      if kind.Unknown? || kind.Generic? then Tried(db, false)
      else if Find(db.links, session, id) < |db.links| then AttachAll(db, session, order[1..], digest, us)
      else
        var t := Announce(Attach(db, session, id, order[0]), |db.links|, us(|order|));
        if t.ok then AttachAll(t.db, session, order[1..], digest, us) else t
  }

  // ----- the steps of a run -----

  datatype Step =
    | CreateResource(q: Request, i: Inserting, cancelOk: bool, u: Upcall)
    | DeleteResource(session: SessionId, id: AttachId, e: Around)
    | CloseSession(session: SessionId, es: nat -> Around)
    | CleanUpResources(es: nat -> Around)
    | OpenSession(session: SessionId, order: seq<Name>, digest: Name -> nat, us: nat -> Upcall)

  function Do(db: Db, step: Step): Db {
    match step
    case CreateResource(q, i, cancelOk, u) => Create(db, q, i, cancelOk, u).db
    case DeleteResource(session, id, e) =>
      var k := Find(db.links, session, id);
      if k < |db.links| then Detach(db, k, true, e).db else db
    case CloseSession(session, es) => DetachAll(db, session, 0, es).db
    case CleanUpResources(es) => CleanUp(db, 0, es).db
    case OpenSession(session, order, digest, us) => AttachAll(db, session, order, digest, us).db
  }

  function Exec(db: Db, steps: seq<Step>): Db
    decreases |steps|
  {
    if steps == [] then db else Exec(Do(db, steps[0]), steps[1..])
  }

  const EMPTY := Db(map[], [])

  // ----- counts -----

  /** Every attachment's record is there, every record counts its attachments, and one whose
      deletion was asked for is still in use. */
  ghost predicate Exact(db: Db) {
    && (forall k :: 0 <= k < |db.links| ==> db.links[k].name in db.records)
    && (forall r :: r in db.records ==> db.records[r].count == Count(db.links, r))
    && (forall r :: r in db.records && db.records[r].pending ==> db.records[r].count > 0)
  }

  /** As before, while the record of `r` may be on its way out. */
  ghost predicate ExactBut(db: Db, r: Name) {
    && (forall k :: 0 <= k < |db.links| ==> db.links[k].name in db.records)
    && (forall q :: q in db.records ==> db.records[q].count == Count(db.links, q))
    && (forall q :: q in db.records && q != r && db.records[q].pending ==> db.records[q].count > 0)
  }

  lemma {:induction false} CountConcat(a: seq<Link>, b: seq<Link>, r: Name)
    ensures Count(a + b, r) == Count(a, r) + Count(b, r)
  {
    if a == [] {
      assert a + b == b;
    } else {
      assert (a + b)[1..] == a[1..] + b;
      CountConcat(a[1..], b, r);
    }
  }

  lemma CountRemove(links: seq<Link>, k: nat, r: Name)
    requires k < |links|
    ensures Count(Remove(links, k), r) == Count(links, r) - (if links[k].name == r then 1 else 0)
  {
    assert links == links[..k] + ([links[k]] + links[k + 1..]);
    CountConcat(links[..k], [links[k]] + links[k + 1..], r);
    CountConcat([links[k]], links[k + 1..], r);
    CountConcat(links[..k], links[k + 1..], r);
  }

  lemma AttachExact(db: Db, session: SessionId, id: AttachId, r: Name)
    requires Exact(db) && r in db.records
    ensures Exact(Attach(db, session, id, r))
  {
    forall q
      ensures Count(db.links + [Link(session, id, r, db.records[r].kind)], q) == Count(db.links, q) + (if q == r then 1 else 0)
    {
      CountConcat(db.links, [Link(session, id, r, db.records[r].kind)], q);
      assert Count([], q) == 0;
    }
  }

  lemma CountsRemove(links: seq<Link>, k: nat)
    requires k < |links|
    ensures forall q :: Count(Remove(links, k), q) == Count(links, q) - (if q == links[k].name then 1 else 0)
  {
    forall q
      ensures Count(Remove(links, k), q) == Count(links, q) - (if q == links[k].name then 1 else 0)
    {
      CountRemove(links, k, q);
    }
  }

  lemma LinksRemove(links: seq<Link>, k: nat, records: map<Name, Record>)
    requires k < |links| && forall j :: 0 <= j < |links| ==> links[j].name in records
    ensures forall j :: 0 <= j < |Remove(links, k)| ==> Remove(links, k)[j].name in records
  {
    assert forall j :: 0 <= j < |Remove(links, k)| ==> Remove(links, k)[j] == links[if j < k then j else j + 1];
  }

  lemma DropExact(db: Db, k: nat, rec: Record)
    requires Exact(db) && k < |db.links| && rec.count + 1 == db.records[db.links[k].name].count
    ensures ExactBut(Db(db.records[db.links[k].name := rec], Remove(db.links, k)), db.links[k].name)
  {
    CountsRemove(db.links, k);
    LinksRemove(db.links, k, db.records[db.links[k].name := rec]);
  }

  lemma MarkExact(db: Db, also: set<Name>, r: Name)
    requires ExactBut(db, r)
    ensures ExactBut(Db(MarkDead(db.records, also), db.links), r)
  {
  }

  lemma ForgetExact(db: Db, r: Name)
    requires ExactBut(db, r) && r in db.records && db.records[r].count == 0
    ensures Exact(Db(db.records - {r}, db.links)) && Count(db.links, r) == 0
  {
  }

  /** A detachment that lets the record go, or would but for the native entity. */
  lemma LastDetachExact(db: Db, k: nat, rec: Record, also: set<Name>)
    requires Exact(db) && k < |db.links| && rec.count == 0 && db.records[db.links[k].name].count == 1
    ensures var r := db.links[k].name;
            var records := db.records[r := rec];
            var marked := if rec.dead then records else MarkDead(records, also);
            Exact(Db(marked - {r}, Remove(db.links, k))) && Count(Remove(db.links, k), r) == 0
  {
    var r := db.links[k].name;
    var db1 := Db(db.records[r := rec], Remove(db.links, k));
    DropExact(db, k, rec);
    MarkExact(db1, also, r);
    ForgetExact(if rec.dead then db1 else Db(MarkDead(db1.records, also), db1.links), r);
  }

  /** The last attachment of a live resource that is to be deleted goes, and the native entity
      cannot be deleted: the count is taken down, the attachment stays. */
  predicate Miscounts(db: Db, k: nat, explicit: bool, e: Around)
    requires k < |db.links|
  {
    var r := db.links[k].name;
    && r in db.records && db.records[r].count == 1 && (db.records[r].pending || explicit) && !db.records[r].dead
    && e.cancelOk && !e.nativeOk
  }

  /** An attachment whose record has counted it down already. */
  ghost predicate Zeroed(db: Db, l: Link) {
    l in db.links && l.name in db.records && db.records[l.name].dead && db.records[l.name].count == 0
  }

  lemma ZeroedInexact(db: Db, l: Link)
    requires Zeroed(db, l)
    ensures !Exact(db)
  {
    var k :| 0 <= k < |db.links| && db.links[k] == l;
    assert db.links[k].name == l.name && Count(db.links, l.name) > 0;
  }

  /** Detaching keeps the counts exact exactly when it does not miscount, and miscounting is the
      same as failing at the native entity; the branches for an unknown resource and for a zero
      count are never taken; a record goes away only when nothing is attached to it any more. */
  lemma DetachExactly(db: Db, k: nat, explicit: bool, e: Around)
    requires Exact(db) && k < |db.links|
    ensures var d := Detach(db, k, explicit, e);
            && !d.trouble.UnknownResource? && !d.trouble.ZeroCount?
            && (Exact(d.db) <==> !Miscounts(db, k, explicit, e))
            && (d.trouble.NativeFailed? <==> Miscounts(db, k, explicit, e))
            && (Miscounts(db, k, explicit, e) ==> Zeroed(d.db, db.links[k]))
            && (forall r :: r in db.records && r !in d.db.records ==> Count(d.db.links, r) == 0)
  {
    var r := db.links[k].name;
    var rec := db.records[r].(count := db.records[r].count - 1, pending := db.records[r].pending || explicit);
    if Miscounts(db, k, explicit, e) {
      ZeroedInexact(Detach(db, k, explicit, e).db, db.links[k]);
    } else if rec.pending && rec.count == 0 {
      LastDetachExact(db, k, rec, e.also + {r});
    } else {
      DropExact(db, k, rec);
    }
  }

  /** A deletion asked for is not forgotten: after it the resource is gone, or its record says
      so and is still in use. */
  lemma DeletionRemembered(db: Db, k: nat, explicit: bool, e: Around)
    requires Exact(db) && k < |db.links|
    ensures var d := Detach(db, k, explicit, e);
            && (forall r :: r in db.records && r in d.db.records && db.records[r].pending ==> d.db.records[r].pending)
            && (d.trouble.Fine? && explicit ==>
                  var r := db.links[k].name; r in d.db.records ==> d.db.records[r].pending && Count(d.db.links, r) > 0)
  {
    DetachExactly(db, k, explicit, e);
  }

  // ----- when each step keeps the counts -----

  /** A failing announcement detaches without asking for deletion. */
  predicate AnnounceWorks(db: Db, k: nat, u: Upcall)
    requires k < |db.links|
  {
    u.enableOk && !u.createdOk ==> !Miscounts(db, k, false, u.detaching)
  }

  /** The request is for the attachment that is there, and comes as far as announcing it. */
  predicate Reannounces(db: Db, q: Request, cancelOk: bool) {
    var k := Place(db, q);
    k < |db.links| && !q.kind.Unknown? && db.links[k].kind == q.kind && q.reuse && q.same && cancelOk
  }

  predicate CloseWorks(db: Db, session: SessionId, k: nat, es: nat -> Around)
    requires k <= |db.links|
    decreases |db.links| - k
  {
    if k == |db.links| then true
    else if db.links[k].session != session then CloseWorks(db, session, k + 1, es)
    else
      var e := es(|db.links|);
      !Miscounts(db, k, false, e) && var d := Detach(db, k, false, e); d.trouble.Fine? ==> CloseWorks(d.db, session, k, es)
  }

  /** Which answers from around a step let it keep the counts: only an explicit deletion, the
      end of a session and a repeated creation can go wrong. */
  predicate StepWorks(db: Db, step: Step) {
    match step
    case CreateResource(q, i, cancelOk, u) => Reannounces(db, q, cancelOk) ==> AnnounceWorks(db, Place(db, q), u)
    case DeleteResource(session, id, e) =>
      var k := Find(db.links, session, id);
      k < |db.links| ==> !Miscounts(db, k, true, e)
    case CloseSession(session, es) => CloseWorks(db, session, 0, es)
    case CleanUpResources(_) => true
    case OpenSession(_, _, _, _) => true
  }

  /** There is an attachment that was counted down already. */
  ghost predicate Broken(db: Db) { exists l :: Zeroed(db, l) }

  /** The counts are exact if `works`, and for good inexact otherwise. */
  ghost predicate ExactIf(db: Db, works: bool) { if works then Exact(db) else Broken(db) }

  lemma BrokenInexact(db: Db)
    requires Broken(db)
    ensures !Exact(db)
  {
    var l :| Zeroed(db, l);
    ZeroedInexact(db, l);
  }

  lemma DetachIf(db: Db, k: nat, explicit: bool, e: Around)
    requires Exact(db) && k < |db.links|
    ensures ExactIf(Detach(db, k, explicit, e).db, !Miscounts(db, k, explicit, e))
  {
    DetachExactly(db, k, explicit, e);
  }

  lemma AnnounceIf(db: Db, k: nat, u: Upcall)
    requires Exact(db) && k < |db.links|
    ensures ExactIf(Announce(db, k, u).db, AnnounceWorks(db, k, u))
  {
    DetachIf(db, k, false, u.detaching);
  }

  lemma InsertExact(db: Db, r: Name, kind: Kind, byRef: bool, i: Inserting)
    requires Exact(db)
    ensures Exact(Insert(db, r, kind, byRef, i).db)
  {
    if r !in db.records {
      assert forall k :: 0 <= k < |db.links| ==> db.links[k].name != r;
    }
  }

  /** What was attached just now can be detached again without a native deletion. */
  lemma NewWorks(db: Db, session: SessionId, id: AttachId, r: Name, u: Upcall)
    requires Exact(db) && r in db.records
    ensures Exact(Announce(Attach(db, session, id, r), |db.links|, u).db)
  {
    AttachExact(db, session, id, r);
    AnnounceIf(Attach(db, session, id, r), |db.links|, u);
  }

  lemma CreateNewExact(db: Db, q: Request, i: Inserting, u: Upcall)
    requires Exact(db)
    ensures Exact(CreateNew(db, q, i, u).db)
  {
    var s := Insert(db, q.name, q.kind, q.byRef, i);
    InsertExact(db, q.name, q.kind, q.byRef, i);
    if s.ok && CanAttach(s.db.records[q.name].kind, q.id) {
      NewWorks(s.db, q.session, q.id, q.name, u);
    }
  }

  lemma CreateExactly(db: Db, q: Request, i: Inserting, cancelOk: bool, u: Upcall)
    requires Exact(db)
    ensures ExactIf(Create(db, q, i, cancelOk, u).db, StepWorks(db, CreateResource(q, i, cancelOk, u)))
  {
    var k := Place(db, q);
    if k < |db.links| {
      AnnounceIf(db, k, u);
    } else {
      CreateNewExact(db, q, i, u);
    }
  }

  lemma {:induction false} CloseExactly(db: Db, session: SessionId, k: nat, es: nat -> Around)
    requires Exact(db) && k <= |db.links|
    ensures ExactIf(DetachAll(db, session, k, es).db, CloseWorks(db, session, k, es))
    ensures CloseWorks(db, session, k, es) ==> var t := DetachAll(db, session, k, es).trouble; t.Fine? || t.CannotCancel?
    decreases |db.links| - k
  {
    if k < |db.links| {
      if db.links[k].session != session {
        CloseExactly(db, session, k + 1, es);
      } else {
        var e := es(|db.links|);
        DetachExactly(db, k, false, e);
        var d := Detach(db, k, false, e);
        if d.trouble.Fine? {
          CloseExactly(d.db, session, k, es);
        }
      }
    }
  }

  /** A session that is closed without trouble has no attachment left; others keep theirs. */
  lemma {:induction false} DetachAllLeaves(db: Db, session: SessionId, k: nat, es: nat -> Around)
    requires k <= |db.links| && forall j :: 0 <= j < k ==> db.links[j].session != session
    ensures var d := DetachAll(db, session, k, es);
            && (d.trouble.Fine? ==> forall j :: 0 <= j < |d.db.links| ==> d.db.links[j].session != session)
            && (forall l :: l in d.db.links ==> l in db.links)
            && (forall l :: l in db.links && l.session != session ==> l in d.db.links)
    decreases |db.links| - k
  {
    if k < |db.links| {
      if db.links[k].session != session {
        DetachAllLeaves(db, session, k + 1, es);
      } else {
        var d := Detach(db, k, false, es(|db.links|));
        if d.trouble.Fine? {
          DetachAllLeaves(d.db, session, k, es);
          RemoveMembers(db.links, k);
        }
      }
    }
  }

  lemma RemoveMembers(links: seq<Link>, k: nat)
    requires k < |links|
    ensures forall l :: l in Remove(links, k) ==> l in links
    ensures forall l :: l in links && l != links[k] ==> l in Remove(links, k)
  {
    assert forall j :: 0 <= j < |links| && j != k ==> links[j] == Remove(links, k)[if j < k then j else j - 1];
  }

  /** The clean-up detaches from dead resources only, and so never deletes a native entity. */
  lemma {:induction false} CleanUpExact(db: Db, k: nat, es: nat -> Around)
    requires Exact(db) && k <= |db.links|
    ensures Exact(CleanUp(db, k, es).db)
    decreases |db.links| - k
  {
    if k < |db.links| {
      var r := db.links[k].name;
      if db.records[r].dead {
        DetachExactly(db, k, true, es(|db.links|));
        var d := Detach(db, k, true, es(|db.links|));
        if d.trouble.Fine? {
          CleanUpExact(d.db, k, es);
        }
      } else {
        CleanUpExact(db, k + 1, es);
      }
    }
  }

  lemma {:induction false} AttachAllExact(db: Db, session: SessionId, order: seq<Name>, digest: Name -> nat, us: nat -> Upcall)
    requires Exact(db)
    ensures Exact(AttachAll(db, session, order, digest, us).db)
    decreases |order|
  {
    if order != [] {
      var r := order[0];
      if r !in db.records || db.records[r].dead {
        AttachAllExact(db, session, order[1..], digest, us);
      } else {
        var kind := db.records[r].kind;
        var id := AutoId(r, kind, digest);
        if !kind.Unknown? && !kind.Generic? {
          if Find(db.links, session, id) < |db.links| {
            AttachAllExact(db, session, order[1..], digest, us);
          } else {
            NewWorks(db, session, id, r, us(|order|));
            var t := Announce(Attach(db, session, id, r), |db.links|, us(|order|));
            if t.ok {
              AttachAllExact(t.db, session, order[1..], digest, us);
            }
          }
        }
      }
    }
  }

  /** A step from exact counts leads to exact counts exactly when it works, and else to counts
      that stay wrong. */
  lemma StepExactly(db: Db, step: Step)
    requires Exact(db)
    ensures ExactIf(Do(db, step), StepWorks(db, step))
  {
    match step {
      case CreateResource(q, i, cancelOk, u) => CreateExactly(db, q, i, cancelOk, u);
      case DeleteResource(session, id, e) =>
        var k := Find(db.links, session, id);
        if k < |db.links| {
          DetachIf(db, k, true, e);
        }
      case CloseSession(session, es) => CloseExactly(db, session, 0, es);
      case CleanUpResources(es) => CleanUpExact(db, 0, es);
      case OpenSession(session, order, digest, us) => AttachAllExact(db, session, order, digest, us);
    }
  }

  // ----- a miscounted attachment stays -----

  lemma DetachKeepsZeroed(db: Db, k: nat, explicit: bool, e: Around, l: Link)
    requires Zeroed(db, l) && k < |db.links|
    ensures Zeroed(Detach(db, k, explicit, e).db, l)
  {
    RemoveMembers(db.links, k);
  }

  lemma AttachKeepsZeroed(db: Db, session: SessionId, id: AttachId, r: Name, u: Upcall, l: Link)
    requires Zeroed(db, l) && r in db.records && r != l.name
    ensures Zeroed(Announce(Attach(db, session, id, r), |db.links|, u).db, l)
  {
    DetachKeepsZeroed(Attach(db, session, id, r), |db.links|, false, u.detaching, l);
  }

  lemma CreateKeepsZeroed(db: Db, q: Request, i: Inserting, cancelOk: bool, u: Upcall, l: Link)
    requires Zeroed(db, l)
    ensures Zeroed(Create(db, q, i, cancelOk, u).db, l)
  {
    var k := Place(db, q);
    if k < |db.links| {
      DetachKeepsZeroed(db, k, false, u.detaching, l);
    } else if !q.kind.Unknown? {
      var s := Insert(db, q.name, q.kind, q.byRef, i);
      if s.ok && CanAttach(s.db.records[q.name].kind, q.id) {
        AttachKeepsZeroed(s.db, q.session, q.id, q.name, u, l);
      }
    }
  }

  lemma {:induction false} CloseKeepsZeroed(db: Db, session: SessionId, k: nat, es: nat -> Around, l: Link)
    requires Zeroed(db, l) && k <= |db.links|
    ensures Zeroed(DetachAll(db, session, k, es).db, l)
    decreases |db.links| - k
  {
    if k < |db.links| {
      if db.links[k].session != session {
        CloseKeepsZeroed(db, session, k + 1, es, l);
      } else {
        DetachKeepsZeroed(db, k, false, es(|db.links|), l);
        var d := Detach(db, k, false, es(|db.links|));
        if d.trouble.Fine? {
          CloseKeepsZeroed(d.db, session, k, es, l);
        }
      }
    }
  }

  lemma {:induction false} CleanUpKeepsZeroed(db: Db, k: nat, es: nat -> Around, l: Link)
    requires Zeroed(db, l) && k <= |db.links|
    ensures Zeroed(CleanUp(db, k, es).db, l)
    decreases |db.links| - k
  {
    if k < |db.links| && db.links[k].name in db.records {
      var r := db.links[k].name;
      if db.records[r].dead || (db.records[r].pending && db.records[r].count == 0) {
        DetachKeepsZeroed(db, k, true, es(|db.links|), l);
        var d := Detach(db, k, true, es(|db.links|));
        if d.trouble.Fine? {
          CleanUpKeepsZeroed(d.db, k, es, l);
        }
      } else {
        CleanUpKeepsZeroed(db, k + 1, es, l);
      }
    }
  }

  lemma {:induction false} AttachAllKeepsZeroed(db: Db, session: SessionId, order: seq<Name>, digest: Name -> nat, us: nat -> Upcall, l: Link)
    requires Zeroed(db, l)
    ensures Zeroed(AttachAll(db, session, order, digest, us).db, l)
    decreases |order|
  {
    if order != [] {
      var r := order[0];
      if r !in db.records || db.records[r].dead {
        AttachAllKeepsZeroed(db, session, order[1..], digest, us, l);
      } else {
        var id := AutoId(r, db.records[r].kind, digest);
        if Find(db.links, session, id) < |db.links| {
          AttachAllKeepsZeroed(db, session, order[1..], digest, us, l);
        } else {
          AttachKeepsZeroed(db, session, id, r, us(|order|), l);
          var t := Announce(Attach(db, session, id, r), |db.links|, us(|order|));
          if t.ok {
            AttachAllKeepsZeroed(t.db, session, order[1..], digest, us, l);
          }
        }
      }
    }
  }

  lemma StepKeepsBroken(db: Db, step: Step)
    requires Broken(db)
    ensures Broken(Do(db, step))
  {
    var l :| Zeroed(db, l);
    assert Zeroed(Do(db, step), l) by {
      match step {
        case CreateResource(q, i, cancelOk, u) => CreateKeepsZeroed(db, q, i, cancelOk, u, l);
        case DeleteResource(session, id, e) =>
          if Find(db.links, session, id) < |db.links| {
            DetachKeepsZeroed(db, Find(db.links, session, id), true, e, l);
          }
        case CloseSession(session, es) => CloseKeepsZeroed(db, session, 0, es, l);
        case CleanUpResources(es) => CleanUpKeepsZeroed(db, 0, es, l);
        case OpenSession(session, order, digest, us) => AttachAllKeepsZeroed(db, session, order, digest, us, l);
      }
    }
  }

  lemma {:induction false} RunKeepsBroken(db: Db, steps: seq<Step>)
    requires Broken(db)
    ensures Broken(Exec(db, steps))
    decreases |steps|
  {
    if steps != [] {
      StepKeepsBroken(db, steps[0]);
      RunKeepsBroken(Do(db, steps[0]), steps[1..]);
    }
  }

  // ----- which runs keep the counts -----

  predicate RunWorks(db: Db, steps: seq<Step>)
    decreases |steps|
  {
    steps == [] || (StepWorks(db, steps[0]) && RunWorks(Do(db, steps[0]), steps[1..]))
  }

  lemma {:induction false} RunIf(db: Db, steps: seq<Step>)
    requires Exact(db)
    ensures ExactIf(Exec(db, steps), RunWorks(db, steps))
    decreases |steps|
  {
    if steps != [] {
      StepExactly(db, steps[0]);
      if StepWorks(db, steps[0]) {
        RunIf(Do(db, steps[0]), steps[1..]);
      } else {
        RunKeepsBroken(Do(db, steps[0]), steps[1..]);
      }
    }
  }

  lemma EmptyExact()
    ensures Exact(EMPTY)
  {
  }

  /** A run keeps the counts exactly when no step of it miscounts; what one step miscounts no
      later step puts right. */
  lemma CountsExactly(steps: seq<Step>)
    ensures Exact(Exec(EMPTY, steps)) <==> RunWorks(EMPTY, steps)
  {
    EmptyExact();
    RunIf(EMPTY, steps);
    if !RunWorks(EMPTY, steps) {
      BrokenInexact(Exec(EMPTY, steps));
    }
  }

  /** After any run, once every session's attachments are gone the shutdown finds every count at
      zero. */
  lemma ShutdownFindsZero(steps: seq<Step>)
    requires Exec(EMPTY, steps).links == []
    ensures forall r :: r in Exec(EMPTY, steps).records ==> Exec(EMPTY, steps).records[r].count == 0
  {
    EmptyExact();
    RunIf(EMPTY, steps);
  }

  const NAME: Name := "p"

  const SMOOTH := Around(true, true, {})

  const CREATED: Step := CreateResource(Request(1, 17, NAME, Participant, true, false, false, false), Works, true, Upcall(true, true, SMOOTH))

  const STUCK: Step := DeleteResource(1, 17, Around(true, false, {}))

  /** A deletion that fails at the native entity has counted its attachment down but keeps it;
      a second attempt meets the "unexpected zero attach count". */
  lemma FailedDeletionMiscounts()
    ensures var db := Exec(EMPTY, [CREATED, STUCK]);
            |db.links| == 1 && db.links[0].name == NAME && NAME in db.records && db.records[NAME].count == 0
            && Detach(db, 0, true, SMOOTH).trouble.ZeroCount?
  {
    var db1 := Do(EMPTY, CREATED);
    assert db1 == Db(map[NAME := Record(Participant, 1, false, false)], [Link(1, 17, NAME, Participant)]);
    assert Find(db1.links, 1, 17) == 0;
    var db2 := Do(db1, STUCK);
    assert [CREATED, STUCK][1..] == [STUCK] && [STUCK][1..] == [];
    assert Exec(EMPTY, [CREATED, STUCK]) == Exec(db1, [STUCK]) == Exec(db2, []);
  }

  /** A new attachment whose announcement fails is taken back: attachments and counts are as
      before, and only an unused record may have come or an unwanted one gone. */
  lemma FailedCreateRollsBack(db: Db, q: Request, cancelOk: bool, u: Upcall)
    requires Exact(db) && Place(db, q) == |db.links|
    requires u.enableOk && !u.createdOk && u.detaching.cancelOk
    ensures var t := Create(db, q, Works, cancelOk, u);
            && !t.ok && t.db.links == db.links
            && forall r :: r in db.records ==> r in t.db.records && t.db.records[r] == db.records[r]
  {
    var s := Insert(db, q.name, q.kind, q.byRef, Works);
    if s.ok {
      var a := Attach(s.db, q.session, q.id, q.name);
      assert a.links[|db.links|] == Link(q.session, q.id, q.name, s.db.records[q.name].kind);
      assert Remove(a.links, |db.links|) == db.links;
    }
  }
}
