/** DDS entities and the resource records made for them: what a deletion may do to both, when
    an entity goes with all that it contains, and how one part of a deletion follows another. */
module NativeDomain {
  import opened SessionState

  /** `Other` stands for the kinds that have no DDS entity, `Unknown` for a record that was
      finalized, or never set up. */
  datatype Kind = Participant | Publisher | Subscriber | Writer | Reader | Topic | Other | Unknown

  type EntityId = nat

  /** Records are found by the reference string of their resource. */
  type ResourceId = string

  /** A DDS entity: the entity that contains it and, for readers and writers, its topic. */
  datatype Entity = Entity(kind: Kind, parent: Option<EntityId>, topic: EntityId)

  /** A resource record: the entity it was made for, and whether that was disposed of. */
  datatype Record = Record(kind: Kind, native: EntityId, deleted: bool)

  type Domain = map<EntityId, Entity>

  type Table = map<ResourceId, Record>

  /** What the domain answers during a call: which entities it refuses to delete, for which
      records finding the entity or completing its requests fails, and in which order it lists
      entities. */
  datatype Answers = Answers(refused: set<EntityId>, broken: set<ResourceId>, order: seq<EntityId>)

  function Rank(k: Kind): nat {
    match k
    case Participant => 3
    case Publisher => 2
    case Subscriber => 2
    case Writer => 1
    case Reader => 1
    case _ => 0
  }

  /** What kind of entity contains one of the given kind. */
  function Container(k: Kind): Kind {
    match k
    case Writer => Publisher
    case Reader => Subscriber
    case Publisher => Participant
    case Subscriber => Participant
    case Topic => Participant
    case _ => Other
  }

  predicate Contained(es: Domain, c: EntityId)
    requires c in es
  {
    && es[c].kind != Other && es[c].kind != Unknown && (es[c].kind == Participant <==> es[c].parent.None?)
    && (es[c].kind != Participant ==> es[c].parent.value in es && es[es[c].parent.value].kind == Container(es[c].kind))
  }

  /** A reader or writer of the topic. */
  predicate User(es: Domain, x: EntityId, t: EntityId) {
    x in es && (es[x].kind.Reader? || es[x].kind.Writer?) && es[x].topic == t
  }

  /** Containment is as in DDS, and a reader's or writer's topic is one of its participant. */
  ghost predicate Formed(es: Domain) {
    && (forall c :: c in es ==> Contained(es, c))
    && (forall x, t :: User(es, x, t) ==> t in es && es[t].kind == Topic && es[t].parent == es[es[x].parent.value].parent)
  }

  predicate Child(es: Domain, c: EntityId, e: EntityId) {
    c in es && es[c].kind != Topic && es[c].parent == Some(e)
  }

  /** `c` is `e` itself, contained in it, or contained in something contained in it. */
  predicate Below(es: Domain, c: EntityId, e: EntityId) {
    || (c == e && c in es)
    || Child(es, c, e)
    || (c in es && es[c].parent.Some? && Child(es, c, es[c].parent.value) && Child(es, es[c].parent.value, e))
  }

  /** Everything under an entity, topics apart. */
  function Tree(es: Domain, e: EntityId): (t: set<EntityId>) {
    set c | c in es && Below(es, c, e)
  }

  // ----- what a deletion takes off the domain -----

  predicate NoTwice(log: seq<EntityId>) { forall i, j :: 0 <= i < j < |log| ==> log[i] != log[j] }

  function Elements(log: seq<EntityId>): set<EntityId> { set c | c in log }

  /** The topic was used, and by entities that have gone only. */
  ghost predicate LosesUsers(es: Domain, t: EntityId, gone: set<EntityId>) {
    (exists x :: User(es, x, t) && x in gone) && forall x :: User(es, x, t) ==> x in gone
  }

  /** The topics that go together with their last reader or writer. */
  ghost function Freed(es: Domain, gone: set<EntityId>, refused: set<EntityId>): set<EntityId> {
    set t | t in es && es[t].kind == Topic && t !in refused && LosesUsers(es, t, gone)
  }

  /** What is left without `gone` and the topics freed by it. */
  ghost predicate Without(es0: Domain, es: Domain, gone: set<EntityId>, refused: set<EntityId>) {
    es.Keys == es0.Keys - gone - Freed(es0, gone, refused) && forall c :: c in es ==> es[c] == es0[c]
  }

  /** Whatever an entity contained went before it. */
  ghost predicate ContentsFirst(es0: Domain, log: seq<EntityId>) {
    forall i, c :: 0 <= i < |log| && Child(es0, c, log[i]) ==> c in log[..i]
  }

  /** The entities of `log` went, each once and in that order, and the topics freed by it. */
  ghost predicate Took(es0: Domain, es: Domain, log: seq<EntityId>, refused: set<EntityId>) {
    && Formed(es) && Without(es0, es, Elements(log), refused) && NoTwice(log) && ContentsFirst(es0, log)
    && forall c :: c in log ==> c in es0 && es0[c].kind != Topic
  }

  // ----- what it does to the records -----

  /** The record is one for an entity that contains others, or is contained. */
  predicate OfEntity(r: Record) { r.kind != Topic && r.kind != Other && r.kind != Unknown }

  function Final(r: Record): Record { r.(kind := Unknown, deleted := true) }

  /** A record is left alone, only marked when something about it is broken, or finalized. */
  predicate Touched(a: Record, b: Record, broken: bool) {
    b == a || (OfEntity(a) && !a.deleted && b == if broken then a.(deleted := true) else Final(a))
  }

  /** Records for entities of `gone` are finalized, and none touched but for those of `among`. */
  ghost predicate TouchedAmong(rs0: Table, rs: Table, broken: set<ResourceId>, gone: set<EntityId>, among: set<EntityId>) {
    && rs.Keys == rs0.Keys
    && (forall r :: r in rs0 ==> Touched(rs0[r], rs[r], r in broken))
    && (forall r :: r in rs0 && rs[r] != rs0[r] ==> rs0[r].native in among)
    && (forall r :: r in rs0 && OfEntity(rs0[r]) && rs0[r].native in gone ==> rs[r] == Final(rs0[r]))
  }

  function Finalized(rs: Table, gone: set<EntityId>): Table {
    map r | r in rs :: if OfEntity(rs[r]) && rs[r].native in gone then Final(rs[r]) else rs[r]
  }

  /** How far a deletion got that takes entities among `among` off the domain. */
  ghost predicate Progress(es0: Domain, es: Domain, rs0: Table, rs: Table, a: Answers, log: seq<EntityId>, among: set<EntityId>) {
    Took(es0, es, log, a.refused) && Elements(log) <= among && TouchedAmong(rs0, rs, a.broken, Elements(log), among)
  }

  // ----- what goes -----

  /** The search for an entity's record comes upon this one. */
  predicate RecordOf(es: Domain, rs: Table, r: ResourceId, x: EntityId) {
    x in es && r in rs && rs[r].kind == es[x].kind && rs[r].native == x
  }

  /** The entity's record was marked by a deletion that got no further; its deletion answers
      well and does nothing. */
  ghost predicate Stranded(es: Domain, rs: Table, x: EntityId) {
    exists r :: RecordOf(es, rs, r, x) && rs[r].deleted
  }

  /** The entity's record keeps the deletion from reaching the entity. */
  ghost predicate Hindered(es: Domain, rs: Table, broken: set<ResourceId>, x: EntityId) {
    exists r :: RecordOf(es, rs, r, x) && (rs[r].deleted || r in broken)
  }

  /** Nothing stands in the way of deleting the entity with everything under it. */
  ghost predicate Goes(es: Domain, rs: Table, a: Answers, e: EntityId) {
    forall x :: x in Tree(es, e) ==> x !in a.refused && !Hindered(es, rs, a.broken, x)
  }

  /** Every topic of a participant goes with some reader or writer under it. */
  ghost predicate TopicsGo(es: Domain, refused: set<EntityId>, e: EntityId) {
    forall t :: t in es && es[t].kind == Topic && es[t].parent == Some(e) ==>
      t !in refused && exists x :: User(es, x, t) && x in Tree(es, e)
  }

  /** The deletion of a contained entity gives no error. */
  ghost predicate Passes(es: Domain, rs: Table, a: Answers, e: EntityId) { Stranded(es, rs, e) || Goes(es, rs, a, e) }

  // ----- how far it gets -----

  predicate Earlier(order: seq<EntityId>, d: EntityId, c: EntityId) {
    exists i, j :: 0 <= i < j < |order| && order[i] == d && order[j] == c
  }

  /** The domain lists every entity, each once. */
  predicate Lists(order: seq<EntityId>, es: Domain) { NoTwice(order) && es.Keys <= Elements(order) }

  /** Of the entities of its kind, those listed before this one give no error. */
  ghost predicate TurnOf(es: Domain, rs: Table, a: Answers, e: EntityId, c: EntityId) {
    Child(es, c, e) && forall d :: Child(es, d, e) && es[d].kind == es[c].kind && Earlier(a.order, d, c) ==> Passes(es, rs, a, d)
  }

  /** The deletion of an entity's contents comes to this one: subscribers go before publishers. */
  ghost predicate Turn(es: Domain, rs: Table, a: Answers, e: EntityId, c: EntityId) {
    TurnOf(es, rs, a, e, c)
    && (es[c].kind == Publisher ==> forall d :: Child(es, d, e) && es[d].kind == Subscriber ==> Passes(es, rs, a, d))
  }

  /** What the deletion of a contained entity comes to: the entity, and if its record lets it
      through what it contains. */
  ghost function ReachedUnder(es: Domain, rs: Table, a: Answers, c: EntityId): (s: set<EntityId>) {
    set y | y in es && (y == c || (!Hindered(es, rs, a.broken, c) && Turn(es, rs, a, c, y)))
  }

  ghost function ReachedIn(es: Domain, rs: Table, a: Answers, e: EntityId): (s: set<EntityId>) {
    set y | y in es && exists c :: Turn(es, rs, a, e, c) && y in ReachedUnder(es, rs, a, c)
  }

  /** All that the deletion of an entity comes to. */
  ghost function Reached(es: Domain, rs: Table, a: Answers, e: EntityId): (s: set<EntityId>) {
    {e} + (if Hindered(es, rs, a.broken, e) then {} else ReachedIn(es, rs, a, e))
  }

  ghost function Going(es: Domain, rs: Table, a: Answers, among: set<EntityId>): (s: set<EntityId>) {
    set x | x in among && Goes(es, rs, a, x)
  }

  /** What the deletion of an entity takes off the domain, topics apart: whatever it comes to and
      goes; a participant also only if its topics do. */
  ghost function TakenBy(es: Domain, rs: Table, a: Answers, e: EntityId): (s: set<EntityId>) {
    Going(es, rs, a, Reached(es, rs, a, e)) - (if TopicsGo(es, a.refused, e) then {} else {e})
  }

  /** The live records of the entities that were come to are finalized, or marked where broken. */
  function Recorded(rs: Table, broken: set<ResourceId>, reached: set<EntityId>): (t: Table)
    ensures t.Keys == rs.Keys
  {
    map r | r in rs :: if OfEntity(rs[r]) && !rs[r].deleted && rs[r].native in reached
                       then if r in broken then rs[r].(deleted := true) else Final(rs[r])
                       else rs[r]
  }

  /** Exactly what was come to and goes was taken, and exactly the records on the way touched. */
  ghost predicate Exactly(es0: Domain, rs0: Table, rs: Table, a: Answers, log: seq<EntityId>, reached: set<EntityId>) {
    Elements(log) == Going(es0, rs0, a, reached) && rs == Recorded(rs0, a.broken, reached)
  }

  // ----- one call -----

  datatype World = World(es: Domain, rs: Table)

  function Off(es: Domain, e: EntityId): Domain { map c | c in es && c != e :: es[c] }

  /** Where a topic that is asked to go does so: not refused, and without readers or writers. */
  ghost function DropTopic(es: Domain, t: EntityId, refused: set<EntityId>): Domain {
    if t in es && es[t].kind == Topic && t !in refused && (forall x :: !User(es, x, t)) then Off(es, t) else es
  }

  ghost function Less(es: Domain, gone: set<EntityId>, refused: set<EntityId>): Domain {
    map c | c in es && c !in gone && c !in Freed(es, gone, refused) :: es[c]
  }

  predicate Live(rs: Table, id: ResourceId) { id in rs && !rs[id].deleted }

  /** The record has no kind, or is for an entity and something about it is broken. */
  predicate Fails(rs: Table, id: ResourceId, a: Answers)
    requires id in rs
  {
    rs[id].kind == Unknown || (rs[id].kind != Other && id in a.broken)
  }

  /** The entity a record was made for is still there; topics and the kinds that have no entity
      apart. */
  predicate Stands(es: Domain, rs: Table, id: ResourceId)
    requires id in rs
  {
    OfEntity(rs[id]) && rs[id].native in es && es[rs[id].native].kind == rs[id].kind
  }

  /** What deleting a native resource makes of entities and records. */
  ghost function Called(w: World, id: ResourceId, a: Answers): World {
    var es, rs := w.es, w.rs;
    if !Live(rs, id) then w
    else if Stands(es, rs, id) then
      var e := rs[id].native;
      World(Less(es, TakenBy(es, rs, a, e), a.refused), Recorded(rs, a.broken, Reached(es, rs, a, e)))
    else if Fails(rs, id, a) then World(es, rs[id := rs[id].(deleted := true)])
    else World(if rs[id].kind == Topic then DropTopic(es, rs[id].native, a.refused) else es, rs[id := Final(rs[id])])
  }

  /** Whether it answers well. */
  ghost predicate Answer(w: World, id: ResourceId, a: Answers) {
    Live(w.rs, id) ==>
      if Stands(w.es, w.rs, id) then Goes(w.es, w.rs, a, w.rs[id].native) && TopicsGo(w.es, a.refused, w.rs[id].native)
      else !Fails(w.rs, id, a)
  }

  // ----- what holds of entities and their records -----

  /** A record of an entity that exists is of its kind, and the only one for it. */
  ghost predicate Consistent(es: Domain, rs: Table) {
    && (forall r :: r in rs && OfEntity(rs[r]) && rs[r].native in es ==> rs[r].kind == es[rs[r].native].kind)
    && (forall r, q, x :: RecordOf(es, rs, r, x) && RecordOf(es, rs, q, x) && es[x].kind != Topic ==> r == q)
  }

  /** Every record for an entity is for one that is there. */
  predicate NoneStale(es: Domain, rs: Table) {
    forall r :: r in rs && OfEntity(rs[r]) ==> rs[r].native in es && rs[r].kind == es[rs[r].native].kind
  }

  /** No record is left that is for an entity. */
  predicate NoRecord(rs: Table, e: EntityId) { forall r :: r in rs ==> !(OfEntity(rs[r]) && rs[r].native == e) }

  // ----- trees -----

  lemma TreeOfChild(es: Domain, e: EntityId, c: EntityId)
    requires Formed(es) && Child(es, c, e) && e in es
    ensures Tree(es, c) <= Tree(es, e) && e !in Tree(es, c) && c in Tree(es, c)
  {
  }

  lemma TreesApart(es: Domain, e: EntityId, c: EntityId, d: EntityId)
    requires Formed(es) && Child(es, c, e) && Child(es, d, e) && c != d
    ensures Tree(es, c) !! Tree(es, d)
  {
  }

  /** A tree is the entity and the trees of what it contains. */
  lemma TreeSplits(es: Domain, e: EntityId, x: EntityId)
    requires Formed(es) && e in es && x in Tree(es, e) && x != e
    ensures exists c :: Child(es, c, e) && x in Tree(es, c)
  {
    if Child(es, x, e) {
      assert x in Tree(es, x);
    } else {
      assert Child(es, es[x].parent.value, e) && x in Tree(es, es[x].parent.value);
    }
  }

  lemma TreeStays(es0: Domain, es: Domain, gone: set<EntityId>, refused: set<EntityId>, e: EntityId)
    requires Formed(es0) && Formed(es) && Without(es0, es, gone, refused) && gone !! Tree(es0, e)
    requires e in es0 && es0[e].kind != Topic
    ensures Tree(es, e) == Tree(es0, e) && e in es
  {
    assert e in Tree(es0, e);
    forall x | x in Tree(es0, e)
      ensures x in Tree(es, e)
    {
      assert es0[x].kind != Topic && x in es;
      if !Child(es0, x, e) && x != e {
        var p := es0[x].parent.value;
        assert p in Tree(es0, e) && es0[p].kind != Topic && p in es;
      }
    }
  }

  lemma TreeWithin(es: Domain, e: EntityId, x: EntityId)
    requires Formed(es) && x in Tree(es, e)
    ensures Tree(es, x) <= Tree(es, e)
  {
    forall y | y in Tree(es, x)
      ensures y in Tree(es, e)
    {
      assert Contained(es, x) && Contained(es, y);
      if y != x && x != e {
        assert Contained(es, es[x].parent.value);
      }
    }
  }

  /** An entity goes exactly when it is let go itself and so is all it contains. */
  lemma GoesSplits(es: Domain, rs: Table, a: Answers, e: EntityId)
    requires Formed(es) && e in es
    ensures Goes(es, rs, a, e) <==>
              e !in a.refused && !Hindered(es, rs, a.broken, e) && forall c :: Child(es, c, e) ==> Goes(es, rs, a, c)
  {
    if Goes(es, rs, a, e) {
      assert e in Tree(es, e);
      forall c | Child(es, c, e)
        ensures Goes(es, rs, a, c)
      {
        TreeOfChild(es, e, c);
      }
    } else {
      var x :| x in Tree(es, e) && (x in a.refused || Hindered(es, rs, a.broken, x));
      if x != e {
        TreeSplits(es, e, x);
      }
    }
  }

  // ----- one after the other -----

  /** Topics freed by one deletion and the next are those freed by both. */
  lemma FreedThen(es0: Domain, es1: Domain, a: set<EntityId>, b: set<EntityId>, refused: set<EntityId>)
    requires Without(es0, es1, a, refused) && b <= es1.Keys && forall c :: c in a + b ==> c in es0 && es0[c].kind != Topic
    ensures Freed(es0, a + b, refused) == Freed(es0, a, refused) + Freed(es1, b, refused)
  {
    forall x, t | User(es0, x, t) && x !in a
      ensures User(es1, x, t)
    {
      assert x !in Freed(es0, a, refused);
    }
    assert forall x, t :: User(es1, x, t) ==> User(es0, x, t) && x !in a;
    forall t | t in Freed(es0, a + b, refused)
      ensures t in Freed(es0, a, refused) + Freed(es1, b, refused)
    {
      if t !in Freed(es0, a, refused) {
        assert t in es1;
        if forall x :: User(es0, x, t) ==> x in a {
          assert false;
        }
        var x :| User(es0, x, t) && x !in a;
        assert User(es1, x, t) && x in b;
      }
    }
    forall t | t in Freed(es1, b, refused)
      ensures t in Freed(es0, a + b, refused)
    {
      var x :| User(es1, x, t) && x in b;
      assert User(es0, x, t) && x in a + b;
      forall y | User(es0, y, t)
        ensures y in a + b
      {
        assert y in a || User(es1, y, t);
      }
    }
    forall t | t in Freed(es0, a, refused)
      ensures t in Freed(es0, a + b, refused)
    {
      var x :| User(es0, x, t) && x in a;
      assert x in a + b;
    }
  }

  lemma NoTwiceThen(a: seq<EntityId>, b: seq<EntityId>)
    requires NoTwice(a) && NoTwice(b) && Elements(a) !! Elements(b)
    ensures NoTwice(a + b)
  {
    forall i, j | 0 <= i < |a| && 0 <= j < |b|
      ensures a[i] != b[j]
    {
      assert a[i] in Elements(a) && b[j] in Elements(b);
    }
  }

  lemma ContentsFirstThen(es0: Domain, es1: Domain, a: seq<EntityId>, b: seq<EntityId>, refused: set<EntityId>)
    requires Without(es0, es1, Elements(a), refused) && ContentsFirst(es0, a) && ContentsFirst(es1, b)
    ensures ContentsFirst(es0, a + b)
  {
    forall i, c | 0 <= i < |a + b| && Child(es0, c, (a + b)[i])
      ensures c in (a + b)[..i]
    {
      if i < |a| {
        assert c in a[..i] && (a + b)[..i] == a[..i];
      } else {
        var k := i - |a|;
        assert (a + b)[..i] == a + b[..k];
        if c in es1 {
          assert Child(es1, c, b[k]);
        } else {
          assert c in Elements(a);
        }
      }
    }
  }

  lemma TookThen(es0: Domain, es1: Domain, es2: Domain, a: seq<EntityId>, b: seq<EntityId>, refused: set<EntityId>)
    requires Took(es0, es1, a, refused) && Took(es1, es2, b, refused)
    ensures Took(es0, es2, a + b, refused) && Elements(a + b) == Elements(a) + Elements(b)
  {
    var sa, sb := Elements(a), Elements(b);
    assert Elements(a + b) == sa + sb;
    assert forall c :: c in sa ==> c in a;
    assert forall c :: c in sb ==> c in b && c in es1;
    FreedThen(es0, es1, sa, sb, refused);
    NoTwiceThen(a, b);
    ContentsFirstThen(es0, es1, a, b, refused);
  }

  lemma TouchedThen(rs0: Table, rs1: Table, rs2: Table, broken: set<ResourceId>, a: set<EntityId>, b: set<EntityId>,
                    sa: set<EntityId>, sb: set<EntityId>)
    requires TouchedAmong(rs0, rs1, broken, a, sa) && TouchedAmong(rs1, rs2, broken, b, sb)
    ensures TouchedAmong(rs0, rs2, broken, a + b, sa + sb)
  {
    forall r | r in rs0
      ensures Touched(rs0[r], rs2[r], r in broken) && (rs2[r] != rs0[r] ==> rs0[r].native in sa + sb)
      ensures OfEntity(rs0[r]) && rs0[r].native in a + b ==> rs2[r] == Final(rs0[r])
    {
      assert Touched(rs0[r], rs1[r], r in broken) && Touched(rs1[r], rs2[r], r in broken);
    }
  }

  lemma TouchedMore(rs0: Table, rs: Table, broken: set<ResourceId>, gone: set<EntityId>, a: set<EntityId>, b: set<EntityId>)
    requires TouchedAmong(rs0, rs, broken, gone, a) && a <= b
    ensures TouchedAmong(rs0, rs, broken, gone, b)
  {
  }

  /** A part of a deletion and then another. */
  lemma ProgressThen(es0: Domain, es1: Domain, es2: Domain, rs0: Table, rs1: Table, rs2: Table, an: Answers,
                     a: seq<EntityId>, b: seq<EntityId>, sa: set<EntityId>, sb: set<EntityId>)
    requires Progress(es0, es1, rs0, rs1, an, a, sa) && Progress(es1, es2, rs1, rs2, an, b, sb)
    ensures Progress(es0, es2, rs0, rs2, an, a + b, sa + sb)
  {
    TookThen(es0, es1, es2, a, b, an.refused);
    TouchedThen(rs0, rs1, rs2, an.broken, Elements(a), Elements(b), sa, sb);
  }

  lemma ProgressMore(es0: Domain, es: Domain, rs0: Table, rs: Table, an: Answers, log: seq<EntityId>, a: set<EntityId>, b: set<EntityId>)
    requires Progress(es0, es, rs0, rs, an, log, a) && a <= b
    ensures Progress(es0, es, rs0, rs, an, log, b)
  {
    TouchedMore(rs0, rs, an.broken, Elements(log), a, b);
  }

  lemma NoProgress(es: Domain, rs: Table, an: Answers, among: set<EntityId>)
    requires Formed(es)
    ensures Progress(es, es, rs, rs, an, [], among)
  {
    assert Elements([]) == {} && Freed(es, {}, an.refused) == {};
  }

  /** All went: the records of exactly those are finalized. */
  lemma AllFinalized(es0: Domain, es: Domain, rs0: Table, rs: Table, an: Answers, log: seq<EntityId>)
    requires Progress(es0, es, rs0, rs, an, log, Elements(log))
    ensures rs == Finalized(rs0, Elements(log))
  {
    assert rs.Keys == Finalized(rs0, Elements(log)).Keys;
    forall r | r in rs0
      ensures rs[r] == Finalized(rs0, Elements(log))[r]
    {
      assert Touched(rs0[r], rs[r], r in an.broken);
    }
  }

  lemma ConsistentStays(es0: Domain, es: Domain, rs0: Table, rs: Table, an: Answers, log: seq<EntityId>, among: set<EntityId>)
    requires Consistent(es0, rs0) && Progress(es0, es, rs0, rs, an, log, among)
    ensures Consistent(es, rs)
  {
    forall r | r in rs0
      ensures rs[r].native == rs0[r].native && (rs[r].kind == rs0[r].kind || rs[r].kind == Unknown)
    {
      assert Touched(rs0[r], rs[r], r in an.broken);
    }
    forall r, x | RecordOf(es, rs, r, x)
      ensures RecordOf(es0, rs0, r, x) && es[x] == es0[x]
    {
      assert Contained(es, x);
    }
  }

  lemma NoneStaleStays(es0: Domain, es: Domain, rs0: Table, rs: Table, an: Answers, log: seq<EntityId>, among: set<EntityId>)
    requires NoneStale(es0, rs0) && Progress(es0, es, rs0, rs, an, log, among)
    ensures NoneStale(es, rs)
  {
    forall r | r in rs && OfEntity(rs[r])
      ensures rs[r].native in es && rs[r].kind == es[rs[r].native].kind
    {
      assert Touched(rs0[r], rs[r], r in an.broken);
      assert OfEntity(rs0[r]) && rs0[r].native !in Elements(log);
      assert rs0[r].native !in Freed(es0, Elements(log), an.refused);
    }
  }

  /** What was apart from a deletion is as before: its tree, and whether anything of it goes or is
      stuck. */
  ghost predicate Same(es0: Domain, es: Domain, rs0: Table, rs: Table, an: Answers, e: EntityId) {
    forall x :: x in Tree(es0, e) ==>
      && x in es && x in es0 && es[x] == es0[x] && Tree(es, x) == Tree(es0, x) && Goes(es, rs, an, x) == Goes(es0, rs0, an, x)
      && Stranded(es, rs, x) == Stranded(es0, rs0, x) && Hindered(es, rs, an.broken, x) == Hindered(es0, rs0, an.broken, x)
  }

  lemma RecordsApart(es0: Domain, es: Domain, rs0: Table, rs: Table, an: Answers, log: seq<EntityId>, among: set<EntityId>, x: EntityId)
    requires Progress(es0, es, rs0, rs, an, log, among) && x in es0 && x in es && x !in among
    ensures Stranded(es, rs, x) == Stranded(es0, rs0, x) && Hindered(es, rs, an.broken, x) == Hindered(es0, rs0, an.broken, x)
  {
    forall r
      ensures RecordOf(es, rs, r, x) <==> RecordOf(es0, rs0, r, x)
      ensures RecordOf(es0, rs0, r, x) ==> rs[r] == rs0[r]
    {
      if r in rs0 {
        assert Touched(rs0[r], rs[r], r in an.broken);
      }
    }
  }

  lemma ApartStays(es0: Domain, es: Domain, rs0: Table, rs: Table, an: Answers, log: seq<EntityId>, among: set<EntityId>, e: EntityId)
    requires Formed(es0) && Progress(es0, es, rs0, rs, an, log, among) && e in es0 && es0[e].kind != Topic && among !! Tree(es0, e)
    ensures Same(es0, es, rs0, rs, an, e) && e in Tree(es0, e)
  {
    assert e in Tree(es0, e);
    forall x | x in Tree(es0, e)
      ensures x in es && es[x] == es0[x] && Tree(es, x) == Tree(es0, x)
      ensures Stranded(es, rs, x) == Stranded(es0, rs0, x) && Hindered(es, rs, an.broken, x) == Hindered(es0, rs0, an.broken, x)
    {
      TreeWithin(es0, e, x);
      assert es0[x].kind != Topic;
      TreeStays(es0, es, Elements(log), an.refused, x);
      RecordsApart(es0, es, rs0, rs, an, log, among, x);
    }
    forall x | x in Tree(es0, e)
      ensures Goes(es, rs, an, x) == Goes(es0, rs0, an, x)
    {
      TreeWithin(es0, e, x);
    }
  }

  lemma TurnSame(es0: Domain, es: Domain, rs0: Table, rs: Table, an: Answers, e: EntityId, y: EntityId)
    requires Formed(es0) && Formed(es) && Same(es0, es, rs0, rs, an, e) && e in es0 && es0[e].kind != Topic && y in es
    ensures Turn(es, rs, an, e, y) <==> y in es0 && Turn(es0, rs0, an, e, y)
  {
    assert e in Tree(es0, e) && Tree(es, e) == Tree(es0, e);
    forall d
      ensures Child(es, d, e) <==> Child(es0, d, e)
      ensures Child(es0, d, e) ==> es[d] == es0[d] && Passes(es, rs, an, d) == Passes(es0, rs0, an, d)
    {
      assert Child(es, d, e) ==> d in Tree(es, e);
      assert Child(es0, d, e) ==> d in Tree(es0, e);
    }
  }

  /** So is what the deletion comes to. */
  lemma ReachedSame(es0: Domain, es: Domain, rs0: Table, rs: Table, an: Answers, e: EntityId)
    requires Formed(es0) && Formed(es) && Same(es0, es, rs0, rs, an, e) && e in es0 && es0[e].kind != Topic
    ensures ReachedUnder(es, rs, an, e) == ReachedUnder(es0, rs0, an, e) <= Tree(es0, e)
    ensures Going(es, rs, an, ReachedUnder(es0, rs0, an, e)) == Going(es0, rs0, an, ReachedUnder(es0, rs0, an, e))
  {
    assert e in Tree(es0, e);
    forall y | y in es
      ensures y in ReachedUnder(es, rs, an, e) <==> y in ReachedUnder(es0, rs0, an, e)
    {
      TurnSame(es0, es, rs0, rs, an, e, y);
    }
    forall y | y in ReachedUnder(es0, rs0, an, e)
      ensures y in Tree(es0, e) && y in es
    {
    }
  }

  lemma RecordedThen(rs: Table, broken: set<ResourceId>, a: set<EntityId>, b: set<EntityId>)
    ensures Recorded(Recorded(rs, broken, a), broken, b) == Recorded(rs, broken, a + b)
  {
  }

  lemma ExactlyThen(es0: Domain, es1: Domain, rs0: Table, rs1: Table, rs2: Table, an: Answers, log: seq<EntityId>, more: seq<EntityId>,
                    a: set<EntityId>, b: set<EntityId>)
    requires Exactly(es0, rs0, rs1, an, log, a) && Exactly(es1, rs1, rs2, an, more, b) && Going(es1, rs1, an, b) == Going(es0, rs0, an, b)
    ensures Exactly(es0, rs0, rs2, an, log + more, a + b)
  {
    RecordedThen(rs0, an.broken, a, b);
    assert Elements(log + more) == Elements(log) + Elements(more);
  }

  // ----- the entities a list names -----

  /** Everything under the entities of a list. */
  ghost function Trees(es: Domain, cs: seq<EntityId>): set<EntityId> {
    set x | x in es && exists k :: 0 <= k < |cs| && x in Tree(es, cs[k])
  }

  /** The contained entities of one kind, as the domain lists them. */
  ghost predicate Listed(es: Domain, order: seq<EntityId>, cs: seq<EntityId>, e: EntityId, kind: Kind) {
    && NoTwice(cs) && (forall c :: c in cs <==> Child(es, c, e) && es[c].kind == kind)
    && forall i, j :: 0 <= i < |cs| && 0 <= j < |cs| ==> (i < j <==> Earlier(order, cs[i], cs[j]))
  }

  /** Everything under what an entity contains of one kind. */
  ghost function Under(es: Domain, e: EntityId, kind: Kind): set<EntityId> {
    set x | x in es && exists c :: Child(es, c, e) && es[c].kind == kind && x in Tree(es, c)
  }

  lemma TreesSnoc(es: Domain, cs: seq<EntityId>, c: EntityId)
    requires Formed(es)
    ensures Trees(es, cs + [c]) == Trees(es, cs) + Tree(es, c)
  {
    assert forall k :: 0 <= k < |cs| ==> (cs + [c])[k] == cs[k];
    assert (cs + [c])[|cs|] == c;
  }

  lemma TreesAll(es: Domain, order: seq<EntityId>, cs: seq<EntityId>, e: EntityId, kind: Kind)
    requires Listed(es, order, cs, e, kind)
    ensures Trees(es, cs) == Under(es, e, kind)
  {
    forall x | x in Under(es, e, kind)
      ensures x in Trees(es, cs)
    {
      var c :| Child(es, c, e) && es[c].kind == kind && x in Tree(es, c);
      assert c in cs;
    }
    forall x | x in Trees(es, cs)
      ensures x in Under(es, e, kind)
    {
      var k :| 0 <= k < |cs| && x in Tree(es, cs[k]);
      assert cs[k] in cs;
    }
  }

  /** The tree of the next entity of a list lies apart from those before it. */
  lemma NextApart(es: Domain, order: seq<EntityId>, cs: seq<EntityId>, i: nat, e: EntityId, kind: Kind)
    requires Formed(es) && Listed(es, order, cs, e, kind) && i < |cs|
    ensures Trees(es, cs[..i]) !! Tree(es, cs[i]) && Child(es, cs[i], e) && es[cs[i]].kind == kind
  {
    assert cs[i] in cs;
    forall k | 0 <= k < i
      ensures Tree(es, cs[k]) !! Tree(es, cs[i])
    {
      assert cs[k] in cs;
      TreesApart(es, e, cs[k], cs[i]);
    }
  }

  lemma UnderTree(es: Domain, e: EntityId, kind: Kind)
    requires Formed(es) && e in es
    ensures Under(es, e, kind) <= Tree(es, e) - {e}
  {
    forall x | x in Under(es, e, kind)
      ensures x in Tree(es, e) - {e}
    {
      var c :| Child(es, c, e) && es[c].kind == kind && x in Tree(es, c);
      TreeOfChild(es, e, c);
    }
  }

  lemma UnderApart(es: Domain, e: EntityId, kind: Kind, c: EntityId)
    requires Formed(es) && Child(es, c, e) && es[c].kind != kind
    ensures Under(es, e, kind) !! Tree(es, c)
  {
    forall x | x in Under(es, e, kind)
      ensures x !in Tree(es, c)
    {
      var d :| Child(es, d, e) && es[d].kind == kind && x in Tree(es, d);
      TreesApart(es, e, c, d);
    }
  }
}
