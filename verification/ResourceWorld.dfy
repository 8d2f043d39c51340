/** The resource table and the DDS domain together: each detachment with the native deletion it
    comes to, and what a deletion that failed leaves for good. */
module ResourceWorld {
  import opened SessionState
  import D = ResourceDb
  import opened NativeDomain
  import opened NativeDelete
  import opened NativeRuns
  import NativeRetry

  /** Entities and records as the deletions see them, and the records' counts and attachments. */
  datatype Joint = Joint(w: World, db: D.Db)

  function NativeKind(k: D.Kind): Kind {
    match k
    case Unknown => Kind.Unknown
    case Participant => Participant
    case Topic => Kind.Topic
    case Publisher => Publisher
    case Subscriber => Subscriber
    case Writer => Writer
    case Reader => Kind.Reader
    case Generic(_) => Other
  }

  /** Both halves have the same records, dead in one where marked in the other, and of one kind
      while live. */
  ghost predicate Coupled(j: Joint) {
    && j.w.rs.Keys == j.db.records.Keys
    && forall r :: r in j.w.rs ==>
         && j.db.records[r].dead == j.w.rs[r].deleted
         && (!j.w.rs[r].deleted ==> j.w.rs[r].kind == NativeKind(j.db.records[r].kind))
  }

  function Marked(rs: Table): set<ResourceId> { set r | r in rs && rs[r].deleted }

  /** What a detachment meets at the native entity is what the native deletion makes of it. */
  ghost function AroundOf(w: World, r: ResourceId, cancelOk: bool, a: Answers): D.Around {
    D.Around(cancelOk, Answer(w, r, a), Marked(Called(w, r, a).rs))
  }

  /** The detachment takes the last attachment of a record that is to be deleted. */
  predicate Deletes(db: D.Db, k: nat, explicit: bool, cancelOk: bool)
    requires k < |db.links|
  {
    var r := db.links[k].name;
    r in db.records && db.records[r].count == 1 && cancelOk && (db.records[r].pending || explicit)
  }

  ghost function DetachBoth(j: Joint, k: nat, explicit: bool, cancelOk: bool, a: Answers): Joint
    requires k < |j.db.links|
  {
    var r := j.db.links[k].name;
    var db := D.Detach(j.db, k, explicit, AroundOf(j.w, r, cancelOk, a)).db;
    if Deletes(j.db, k, explicit, cancelOk) then
      var w := Called(j.w, r, a);
      Joint(if Answer(j.w, r, a) then World(w.es, w.rs - {r}) else w, db)
    else Joint(j.w, db)
  }

  lemma CallMarks(w: World, r: ResourceId, a: Answers)
    requires r in w.rs
    ensures var rs := Called(w, r, a).rs;
            && rs.Keys == w.rs.Keys && rs[r].deleted
            && (forall q :: q in rs ==> rs[q].native == w.rs[q].native && (w.rs[q].deleted ==> rs[q] == w.rs[q]))
            && (forall q :: q in rs && !rs[q].deleted ==> rs[q] == w.rs[q])
  {
  }

  /** A detachment with its native deletion is one step on both halves: they stay coupled, the
      record goes from both or from none, and the detachment fails at the native entity exactly
      when the native deletion does. */
  lemma DetachCoupled(j: Joint, k: nat, explicit: bool, cancelOk: bool, a: Answers)
    requires Coupled(j) && k < |j.db.links|
    ensures var t := DetachBoth(j, k, explicit, cancelOk, a);
            var r := j.db.links[k].name;
            && Coupled(t)
            && (r in j.w.rs && r !in t.w.rs <==> Deletes(j.db, k, explicit, cancelOk) && Answer(j.w, r, a))
            && (D.Detach(j.db, k, explicit, AroundOf(j.w, r, cancelOk, a)).trouble.NativeFailed?
                <==> Deletes(j.db, k, explicit, cancelOk) && !Answer(j.w, r, a))
            && (forall q :: q in j.w.rs && q != r ==> q in t.w.rs)
  {
    var r := j.db.links[k].name;
    if Deletes(j.db, k, explicit, cancelOk) {
      CallMarks(j.w, r, a);
    }
  }

  // ----- runs -----

  /** What happens to entities and records: an entity comes, it or a resource without entity gets
      a record under its name, a session is attached, an attachment is taken back. The operations
      of ResourceDb are made of such insertions, attachments and detachments. */
  datatype Move =
    | Appearing(x: EntityId, entity: Entity)
    | Recording(x: EntityId, kind: D.Kind, i: D.Inserting)
    | Listing(r: ResourceId, kind: D.Kind, i: D.Inserting)
    | Attaching(session: D.SessionId, id: D.AttachId, r: ResourceId)
    | Detaching(k: nat, explicit: bool, cancelOk: bool, answers: Answers)

  /** The references of the entities. */
  type Naming = EntityId -> ResourceId

  /** A new record is added unless there is one of that name already. */
  function Insert(j: Joint, r: ResourceId, kind: D.Kind, x: EntityId, i: D.Inserting): Joint {
    if r in j.w.rs || i.Fails? then j
    else Joint(World(j.w.es, j.w.rs[r := Record(if i.BreaksEarly? then Kind.Unknown else NativeKind(kind), x, false)]),
               D.Insert(j.db, r, kind, true, i).db)
  }

  ghost function Do(nm: Naming, j: Joint, m: Move): Joint {
    match m
    case Appearing(x, entity) =>
      if x !in j.w.es && Formed(j.w.es[x := entity]) && (forall r :: r in j.w.rs && j.w.rs[r].native == x ==> j.w.rs[r].kind == Other)
      then j.(w := World(j.w.es[x := entity], j.w.rs)) else j
    case Recording(x, kind, i) =>
      if x in j.w.es && NativeKind(kind) == j.w.es[x].kind then Insert(j, nm(x), kind, x, i) else j
    case Listing(r, kind, i) => if kind.Generic? then Insert(j, r, kind, 0, i) else j
    case Attaching(session, id, r) =>
      if r in j.db.records && !j.db.records[r].dead && !j.db.records[r].kind.Unknown? then j.(db := D.Attach(j.db, session, id, r)) else j
    case Detaching(k, explicit, cancelOk, a) =>
      if k < |j.db.links| then DetachBoth(j, k, explicit, cancelOk, a) else j
  }

  ghost function Exec(nm: Naming, j: Joint, moves: seq<Move>): Joint
    decreases |moves|
  {
    if moves == [] then j else Exec(nm, Do(nm, j, moves[0]), moves[1..])
  }

  const EMPTY := Joint(World(map[], map[]), D.EMPTY)

  // ----- what holds in every run -----

  ghost predicate Linked(db: D.Db) { forall k :: 0 <= k < |db.links| ==> db.links[k].name in db.records }

  /** A record counts its attachments, or it is dead, counted down, and keeps the one that failed. */
  ghost predicate CountedOrDead(db: D.Db) {
    forall r :: r in db.records ==>
      db.records[r].count == D.Count(db.links, r) || (db.records[r].dead && db.records[r].count == 0)
  }

  /** Records of entities have the entities' names. */
  ghost predicate Named(nm: Naming, rs: Table) { forall r :: r in rs && OfEntity(rs[r]) ==> r == nm(rs[r].native) }

  predicate OfParticipant(w: World, r: ResourceId) {
    r in w.rs && w.rs[r].native in w.es && w.es[w.rs[r].native].kind == Participant
  }

  /** Marks are for records of entities. */
  predicate OthersLive(rs: Table) { forall r :: r in rs && rs[r].kind == Other ==> !rs[r].deleted }

  /** A participant's record dies by its own detachment, which counts it down. */
  ghost predicate OwnDeaths(j: Joint) {
    forall r :: r in j.w.rs && r in j.db.records && j.w.rs[r].deleted && OfParticipant(j.w, r) ==> j.db.records[r].count == 0
  }

  ghost predicate WorldInv(nm: Naming, w: World) { Sound(w) && Named(nm, w.rs) && OthersLive(w.rs) }

  ghost predicate Inv(nm: Naming, j: Joint) {
    WorldInv(nm, j.w) && Coupled(j) && Linked(j.db) && CountedOrDead(j.db) && OwnDeaths(j)
  }

  lemma DetachCounted(db: D.Db, k: nat, explicit: bool, e: D.Around)
    requires Linked(db) && CountedOrDead(db) && k < |db.links|
    ensures var d := D.Detach(db, k, explicit, e).db; Linked(d) && CountedOrDead(d)
  {
    var r := db.links[k].name;
    D.CountsRemove(db.links, k);
    D.LinksRemove(db.links, k, db.records);
    var links := Remove(db.links, k);
    if db.records[r].count == 1 {
      assert D.Count(links, r) == 0;
      assert forall j :: 0 <= j < |links| ==> links[j].name != r;
    }
  }

  lemma AttachCounted(db: D.Db, session: D.SessionId, id: D.AttachId, r: ResourceId)
    requires Linked(db) && CountedOrDead(db) && r in db.records && !db.records[r].dead
    ensures var d := D.Attach(db, session, id, r); Linked(d) && CountedOrDead(d)
  {
    forall q
      ensures D.Count(db.links + [D.Link(session, id, r, db.records[r].kind)], q) == D.Count(db.links, q) + (if q == r then 1 else 0)
    {
      D.CountConcat(db.links, [D.Link(session, id, r, db.records[r].kind)], q);
      assert D.Count([], q) == 0;
    }
  }

  lemma InsertCounted(db: D.Db, r: ResourceId, kind: D.Kind, i: D.Inserting)
    requires Linked(db) && CountedOrDead(db) && r !in db.records
    ensures var d := D.Insert(db, r, kind, true, i).db; Linked(d) && CountedOrDead(d)
  {
    assert forall k :: 0 <= k < |db.links| ==> db.links[k].name != r;
    assert D.Count(db.links, r) == 0;
  }

  lemma InsertKeepsWorld(nm: Naming, j: Joint, r: ResourceId, kind: D.Kind, x: EntityId, i: D.Inserting)
    requires Inv(nm, j) && r !in j.w.rs && !i.Fails?
    requires if kind.Generic? then true else x in j.w.es && NativeKind(kind) == j.w.es[x].kind && r == nm(x)
    ensures WorldInv(nm, Insert(j, r, kind, x, i).w)
  {
    if kind.Generic? || i.BreaksEarly? {
      OddRecordSound(j.w, r, Record(if i.BreaksEarly? then Kind.Unknown else Other, x, false));
    } else {
      assert NoRecord(j.w.rs, x);
      RecordKeepsSound(j.w, x, r);
    }
  }

  lemma InsertInv(nm: Naming, j: Joint, r: ResourceId, kind: D.Kind, x: EntityId, i: D.Inserting)
    requires Inv(nm, j)
    requires if kind.Generic? then true else x in j.w.es && NativeKind(kind) == j.w.es[x].kind && r == nm(x)
    ensures Inv(nm, Insert(j, r, kind, x, i))
  {
    if r !in j.w.rs && !i.Fails? {
      InsertCounted(j.db, r, kind, i);
      InsertKeepsWorld(nm, j, r, kind, x, i);
    }
  }

  /** A record that is for no entity. */
  lemma OddRecordSound(w: World, r: ResourceId, rec: Record)
    requires Sound(w) && r !in w.rs && (rec.kind == Other || rec.kind == Kind.Unknown)
    ensures Sound(World(w.es, w.rs[r := rec]))
  {
    var rs1 := w.rs[r := rec];
    forall q, x | RecordOf(w.es, rs1, q, x)
      ensures RecordOf(w.es, w.rs, q, x)
    {
      assert Contained(w.es, x);
    }
  }

  lemma ForgetSound(w: World, r: ResourceId)
    requires Sound(w)
    ensures Sound(World(w.es, w.rs - {r}))
  {
    var rs1 := w.rs - {r};
    assert forall q, x :: RecordOf(w.es, rs1, q, x) ==> RecordOf(w.es, w.rs, q, x);
  }

  /** A call marks no participant's record but the one it is on. */
  lemma CallSparesParticipants(w: World, id: ResourceId, a: Answers, r: ResourceId)
    requires Sound(w) && r in w.rs && r != id && w.rs[r].native in w.es && w.es[w.rs[r].native].kind == Participant
    ensures Called(w, id, a).rs[r] == w.rs[r]
  {
    if Live(w.rs, id) && Stands(w.es, w.rs, id) {
      var e, x := w.rs[id].native, w.rs[r].native;
      if OfEntity(w.rs[r]) && x in Reached(w.es, w.rs, a, e) {
        ReachedInTree(w.es, w.rs, a, e);
        if x != e {
          ChildKindsBelow(w.es, e, x);
        } else {
          assert RecordOf(w.es, w.rs, r, x) && RecordOf(w.es, w.rs, id, x);
        }
        assert false;
      }
    }
  }

  lemma CallKeepsNames(nm: Naming, w: World, id: ResourceId, a: Answers)
    requires Named(nm, w.rs) && OthersLive(w.rs)
    ensures Named(nm, Called(w, id, a).rs) && OthersLive(Called(w, id, a).rs)
  {
  }

  lemma CallKeepsWorld(nm: Naming, w: World, id: ResourceId, a: Answers)
    requires WorldInv(nm, w)
    ensures WorldInv(nm, Called(w, id, a))
  {
    CallKeepsSound(w, id, a);
    CallKeepsNames(nm, w, id, a);
  }

  lemma DetachKeepsWorld(nm: Naming, j: Joint, k: nat, explicit: bool, cancelOk: bool, a: Answers)
    requires WorldInv(nm, j.w) && k < |j.db.links|
    ensures WorldInv(nm, DetachBoth(j, k, explicit, cancelOk, a).w)
  {
    var r := j.db.links[k].name;
    CallKeepsWorld(nm, j.w, r, a);
    ForgetSound(Called(j.w, r, a), r);
  }

  lemma DetachInv(nm: Naming, j: Joint, k: nat, explicit: bool, cancelOk: bool, a: Answers)
    requires Inv(nm, j) && k < |j.db.links|
    ensures Inv(nm, DetachBoth(j, k, explicit, cancelOk, a))
  {
    DetachCoupled(j, k, explicit, cancelOk, a);
    DetachCounted(j.db, k, explicit, AroundOf(j.w, j.db.links[k].name, cancelOk, a));
    DetachKeepsWorld(nm, j, k, explicit, cancelOk, a);
    DetachOwnDeaths(nm, j, k, explicit, cancelOk, a);
  }

  lemma DetachOwnDeaths(nm: Naming, j: Joint, k: nat, explicit: bool, cancelOk: bool, a: Answers)
    requires Inv(nm, j) && k < |j.db.links|
    ensures OwnDeaths(DetachBoth(j, k, explicit, cancelOk, a))
  {
    var t, r := DetachBoth(j, k, explicit, cancelOk, a), j.db.links[k].name;
    forall q | q in t.w.rs && q in t.db.records && t.w.rs[q].deleted && OfParticipant(t.w, q)
      ensures t.db.records[q].count == 0
    {
      if q != r && Deletes(j.db, k, explicit, cancelOk) {
        CallMarks(j.w, r, a);
        CallSparesParticipants(j.w, r, a, q);
      }
    }
  }

  lemma AppearInv(nm: Naming, j: Joint, x: EntityId, entity: Entity)
    requires Inv(nm, j) && x !in j.w.es && Formed(j.w.es[x := entity])
    requires forall r :: r in j.w.rs && j.w.rs[r].native == x ==> j.w.rs[r].kind == Other
    ensures Inv(nm, j.(w := World(j.w.es[x := entity], j.w.rs)))
  {
    EntityKeepsSound(j.w, x, entity);
    var t := j.(w := World(j.w.es[x := entity], j.w.rs));
    forall r | r in t.w.rs && r in t.db.records && t.w.rs[r].deleted && OfParticipant(t.w, r)
      ensures t.db.records[r].count == 0
    {
      assert t.w.rs[r].native != x && OfParticipant(j.w, r);
    }
  }

  lemma StepInv(nm: Naming, j: Joint, m: Move)
    requires Inv(nm, j)
    ensures Inv(nm, Do(nm, j, m))
  {
    match m {
      case Appearing(x, entity) =>
        if Do(nm, j, m) != j {
          AppearInv(nm, j, x, entity);
        }
      case Recording(x, kind, i) =>
        if x in j.w.es && NativeKind(kind) == j.w.es[x].kind {
          assert Contained(j.w.es, x);
          InsertInv(nm, j, nm(x), kind, x, i);
        }
      case Listing(r, kind, i) =>
        if kind.Generic? {
          InsertInv(nm, j, r, kind, 0, i);
        }
      case Attaching(session, id, r) =>
        if r in j.db.records && !j.db.records[r].dead {
          AttachCounted(j.db, session, id, r);
        }
      case Detaching(k, explicit, cancelOk, a) =>
        if k < |j.db.links| {
          DetachInv(nm, j, k, explicit, cancelOk, a);
        }
    }
  }

  lemma {:induction false} ExecInv(nm: Naming, j: Joint, moves: seq<Move>)
    requires Inv(nm, j)
    ensures Inv(nm, Exec(nm, j, moves))
    decreases |moves|
  {
    if moves != [] {
      StepInv(nm, j, moves[0]);
      ExecInv(nm, Do(nm, j, moves[0]), moves[1..]);
    }
  }

  lemma EmptyInv(nm: Naming)
    ensures Inv(nm, EMPTY)
  {
    EmptySound();
  }

  // ----- records that died -----

  /** The move takes a record out of the table: the last attachment of a dead record is detached
      for deletion. */
  predicate Removes(j: Joint, m: Move, r: ResourceId) {
    m.Detaching? && m.k < |j.db.links| && j.db.links[m.k].name == r && Deletes(j.db, m.k, m.explicit, m.cancelOk)
  }

  lemma DeadDetach(j: Joint, k: nat, explicit: bool, cancelOk: bool, a: Answers, r: ResourceId)
    requires Coupled(j) && k < |j.db.links| && r in j.w.rs && j.w.rs[r].deleted && j.db.links[k].name == r
    ensures var t := DetachBoth(j, k, explicit, cancelOk, a);
            && t.w == (if Deletes(j.db, k, explicit, cancelOk) then World(j.w.es, j.w.rs - {r}) else j.w)
            && (!Deletes(j.db, k, explicit, cancelOk) ==> r in t.db.records && t.db.records[r].count <= j.db.records[r].count)
            && (explicit && cancelOk && j.db.records[r].count > 1 ==> r in t.db.records && t.db.records[r].count == j.db.records[r].count - 1)
  {
    assert Called(j.w, r, a) == j.w && Answer(j.w, r, a);
  }

  lemma OtherDetach(j: Joint, k: nat, explicit: bool, cancelOk: bool, a: Answers, r: ResourceId)
    requires Coupled(j) && k < |j.db.links| && r in j.w.rs && j.w.rs[r].deleted && j.db.links[k].name != r
    ensures var t := DetachBoth(j, k, explicit, cancelOk, a);
            r in t.w.rs && t.w.rs[r] == j.w.rs[r] && r in t.db.records && t.db.records[r].count == j.db.records[r].count
  {
    var q := j.db.links[k].name;
    if q in j.w.rs {
      CallMarks(j.w, q, a);
    }
  }

  /** One move leaves a dead record as it is, or takes it out of the table and does nothing to the
      entities. */
  lemma DeadStep(nm: Naming, j: Joint, m: Move, r: ResourceId)
    requires Coupled(j) && r in j.w.rs && j.w.rs[r].deleted
    ensures var t := Do(nm, j, m);
            && (r in t.w.rs <==> !Removes(j, m, r))
            && (r in t.w.rs ==> t.w.rs[r] == j.w.rs[r] && r in t.db.records && t.db.records[r].count <= j.db.records[r].count)
            && (r !in t.w.rs ==> t.w == World(j.w.es, j.w.rs - {r}))
  {
    if m.Detaching? && m.k < |j.db.links| {
      if j.db.links[m.k].name == r {
        DeadDetach(j, m.k, m.explicit, m.cancelOk, m.answers, r);
      } else {
        OtherDetach(j, m.k, m.explicit, m.cancelOk, m.answers, r);
      }
    }
  }

  /** A dead record that has been counted down stays for good. */
  lemma {:induction false} ZeroStays(nm: Naming, j: Joint, moves: seq<Move>, r: ResourceId)
    requires Inv(nm, j) && r in j.w.rs && j.w.rs[r].deleted && j.db.records[r].count == 0
    ensures var t := Exec(nm, j, moves); r in t.w.rs && t.w.rs[r] == j.w.rs[r]
    decreases |moves|
  {
    if moves != [] {
      DeadStep(nm, j, moves[0], r);
      StepInv(nm, j, moves[0]);
      ZeroStays(nm, Do(nm, j, moves[0]), moves[1..], r);
    }
  }

  const PLAIN := Answers({}, {}, [])

  /** One that has not can be detached from until it is removed. */
  lemma SomeLink(links: seq<D.Link>, r: ResourceId) returns (k: nat)
    requires D.Count(links, r) > 0
    ensures k < |links| && links[k].name == r
  {
    k :| 0 <= k < |links| && links[k].name == r;
  }

  lemma {:induction false} CanBeRemoved(nm: Naming, j: Joint, r: ResourceId) returns (moves: seq<Move>)
    requires Inv(nm, j) && r in j.w.rs && j.w.rs[r].deleted && j.db.records[r].count > 0
    ensures r !in Exec(nm, j, moves).w.rs && Exec(nm, j, moves).w.es == j.w.es
    decreases j.db.records[r].count
  {
    var k := SomeLink(j.db.links, r);
    var m := Detaching(k, true, true, PLAIN);
    var t := Do(nm, j, m);
    DeadDetach(j, k, true, true, PLAIN, r);
    if j.db.records[r].count == 1 {
      moves := [m];
      assert [m][1..] == [] && Exec(nm, j, [m]) == Exec(nm, t, []);
    } else {
      StepInv(nm, j, m);
      var rest := CanBeRemoved(nm, t, r);
      moves := [m] + rest;
      assert moves[1..] == rest;
    }
  }

  /** A dead record stays in every run exactly when its attachments have been counted down, as by
      a native deletion that failed under its own last detachment. */
  lemma StaysForGoodExactly(nm: Naming, j: Joint, r: ResourceId)
    requires Inv(nm, j) && r in j.w.rs && j.w.rs[r].deleted
    ensures (forall moves :: r in Exec(nm, j, moves).w.rs) <==> j.db.records[r].count == 0
  {
    if j.db.records[r].count == 0 {
      forall moves
        ensures r in Exec(nm, j, moves).w.rs
      {
        ZeroStays(nm, j, moves, r);
      }
    } else {
      var moves := CanBeRemoved(nm, j, r);
    }
  }

  // ----- entities that are stuck -----

  /** The entity's record is marked, and not finalized. */
  predicate StuckBy(w: World, r: ResourceId, x: EntityId) {
    RecordOf(w.es, w.rs, r, x) && w.es[x].kind != Kind.Topic && w.rs[r].deleted
  }

  lemma DetachHolds(j: Joint, k: nat, explicit: bool, cancelOk: bool, a: Answers, r: ResourceId, x: EntityId, e: EntityId)
    requires Sound(j.w) && k < |j.db.links| && StuckBy(j.w, r, x) && x in Tree(j.w.es, e)
    ensures var t := DetachBoth(j, k, explicit, cancelOk, a).w; x in t.es && t.es[x] == j.w.es[x] && e in t.es && x in Tree(t.es, e)
  {
    assert Stranded(j.w.es, j.w.rs, x);
    NativeRetry.StrandedStays(j.w, Call(j.db.links[k].name, a), x, e);
    assert Contained(j.w.es, x);
  }

  /** Moves but for detachments take nothing away. */
  lemma OthersGrow(nm: Naming, j: Joint, m: Move)
    requires !m.Detaching?
    ensures forall c :: c in j.w.es ==> c in Do(nm, j, m).w.es && Do(nm, j, m).w.es[c] == j.w.es[c]
  {
  }

  lemma StuckHolds(nm: Naming, j: Joint, m: Move, r: ResourceId, x: EntityId, e: EntityId)
    requires Inv(nm, j) && StuckBy(j.w, r, x) && x in Tree(j.w.es, e)
    ensures var t := Do(nm, j, m); x in t.w.es && t.w.es[x] == j.w.es[x] && e in t.w.es && x in Tree(t.w.es, e)
  {
    if m.Detaching? {
      if m.k < |j.db.links| {
        DetachHolds(j, m.k, m.explicit, m.cancelOk, m.answers, r, x, e);
      } else {
        assert Contained(j.w.es, x);
      }
    } else {
      OthersGrow(nm, j, m);
      StepInv(nm, j, m);
      NativeRetry.BelowStays(j.w.es, Do(nm, j, m).w.es, x, e);
    }
  }

  lemma NoLongerStuck(es: Domain, rs: Table, r: ResourceId, x: EntityId)
    requires Formed(es) && Consistent(es, rs) && StuckBy(World(es, rs), r, x)
    ensures !Stranded(es, rs - {r}, x) && NoRecord(rs - {r}, x)
  {
    assert Contained(es, x);
    forall q | q in rs && (RecordOf(es, rs, q, x) || (OfEntity(rs[q]) && rs[q].native == x))
      ensures q == r
    {
      assert RecordOf(es, rs, q, x);
    }
  }

  /** A stuck entity and all that contains it stay through a move; the entity is stuck on exactly
      if the move does not take its record out of the table, and else has no record any more. */
  lemma StuckStep(nm: Naming, j: Joint, m: Move, r: ResourceId, x: EntityId, e: EntityId)
    requires Inv(nm, j) && StuckBy(j.w, r, x) && x in Tree(j.w.es, e)
    ensures var t := Do(nm, j, m);
            && x in t.w.es && e in t.w.es && x in Tree(t.w.es, e)
            && (StuckBy(t.w, r, x) <==> !Removes(j, m, r))
            && (Removes(j, m, r) ==> !Stranded(t.w.es, t.w.rs, x) && NoRecord(t.w.rs, x))
  {
    StuckHolds(nm, j, m, r, x, e);
    DeadStep(nm, j, m, r);
    if Removes(j, m, r) {
      NoLongerStuck(j.w.es, j.w.rs, r, x);
    }
  }

  /** No move so far has taken the record out of the table. */
  ghost predicate NoneRemoves(nm: Naming, j: Joint, moves: seq<Move>, r: ResourceId)
    decreases |moves|
  {
    moves == [] || (!Removes(j, moves[0], r) && NoneRemoves(nm, Do(nm, j, moves[0]), moves[1..], r))
  }

  /** As long as its marked record is in the table, a stuck entity stays, and so does everything
      that contains it, which no deletion can take. */
  lemma {:induction false} StuckWhileRecorded(nm: Naming, j: Joint, moves: seq<Move>, r: ResourceId, x: EntityId, e: EntityId)
    requires Inv(nm, j) && StuckBy(j.w, r, x) && x in Tree(j.w.es, e) && NoneRemoves(nm, j, moves, r)
    ensures var t := Exec(nm, j, moves);
            StuckBy(t.w, r, x) && e in t.w.es && x in Tree(t.w.es, e) && forall a :: !Goes(t.w.es, t.w.rs, a, e)
    decreases |moves|
  {
    if moves == [] {
      forall a
        ensures !Goes(j.w.es, j.w.rs, a, e)
      {
        assert Hindered(j.w.es, j.w.rs, a.broken, x);
      }
      assert Contained(j.w.es, x);
    } else {
      StuckStep(nm, j, moves[0], r, x, e);
      StepInv(nm, j, moves[0]);
      StuckWhileRecorded(nm, Do(nm, j, moves[0]), moves[1..], r, x, e);
    }
  }

  /** A stuck entity is stuck in every run exactly when its record has been counted down; else
      some run takes the record away, and leaves the entity to the next deletion. */
  lemma StuckForGoodExactly(nm: Naming, j: Joint, r: ResourceId, x: EntityId)
    requires Inv(nm, j) && StuckBy(j.w, r, x)
    ensures (forall moves :: StuckBy(Exec(nm, j, moves).w, r, x)) <==> j.db.records[r].count == 0
  {
    StaysForGoodExactly(nm, j, r);
    if j.db.records[r].count == 0 {
      forall moves
        ensures StuckBy(Exec(nm, j, moves).w, r, x)
      {
        ZeroNeverRemoved(nm, j, moves, r);
        assert x in Tree(j.w.es, x);
        StuckWhileRecorded(nm, j, moves, r, x, x);
      }
    } else {
      var moves :| r !in Exec(nm, j, moves).w.rs;
      assert !StuckBy(Exec(nm, j, moves).w, r, x);
    }
  }

  lemma {:induction false} ZeroNeverRemoved(nm: Naming, j: Joint, moves: seq<Move>, r: ResourceId)
    requires Inv(nm, j) && r in j.w.rs && j.w.rs[r].deleted && j.db.records[r].count == 0
    ensures NoneRemoves(nm, j, moves, r)
    decreases |moves|
  {
    if moves != [] {
      DeadStep(nm, j, moves[0], r);
      StepInv(nm, j, moves[0]);
      ZeroNeverRemoved(nm, Do(nm, j, moves[0]), moves[1..], r);
    }
  }

  // ----- participants -----

  lemma ParticipantStep(nm: Naming, j: Joint, m: Move, x: EntityId)
    requires Inv(nm, j) && x in j.w.es && j.w.es[x].kind == Participant && nm(x) in j.w.rs && j.w.rs[nm(x)].deleted
    ensures var t := Do(nm, j, m); x in t.w.es && t.w.es[x] == j.w.es[x]
  {
    if m.Detaching? {
      if m.k < |j.db.links| {
        var q, a := j.db.links[m.k].name, m.answers;
        CallTakesExactly(j.w, Call(q, a), x);
        if Takes(j.w, Call(q, a), x) {
          var e := j.w.rs[q].native;
          if x != e {
            ChildKindsBelow(j.w.es, e, x);
          }
          assert false;
        }
      }
    } else {
      OthersGrow(nm, j, m);
    }
  }

  /** A participant whose deletion failed once stays in every run: its record is dead and counted
      down, nothing contains it, and nothing makes it a new record. */
  lemma {:induction false} FailedParticipantStays(nm: Naming, j: Joint, moves: seq<Move>, x: EntityId)
    requires Inv(nm, j) && x in j.w.es && j.w.es[x].kind == Participant
    requires nm(x) in j.w.rs && j.w.rs[nm(x)].deleted && j.w.rs[nm(x)].native == x
    ensures x in Exec(nm, j, moves).w.es && nm(x) in Exec(nm, j, moves).w.rs
    decreases |moves|
  {
    assert OfParticipant(j.w, nm(x));
    if moves != [] {
      ParticipantStep(nm, j, moves[0], x);
      DeadStep(nm, j, moves[0], nm(x));
      StepInv(nm, j, moves[0]);
      FailedParticipantStays(nm, Do(nm, j, moves[0]), moves[1..], x);
    }
  }
}
