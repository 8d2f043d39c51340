/** The leveled locks of the agent's tables and records: the order in which each operation
    takes and gives them, and why no workers can wait for each other in a circle. */
module Locks {
  import opened SessionState

  datatype Lock = SessionTable | SessionRecord(session: nat) | ResourceTable | ResourceRecord(resource: nat)

  function Level(l: Lock): nat {
    match l
    case SessionTable => 5
    case SessionRecord(_) => 6
    case ResourceTable => 7
    case ResourceRecord(_) => 8
  }

  /** `Take` waits for semaphore: nothing about locks is decided by it. */
  datatype Op = Acquire(l: Lock) | Release(l: Lock) | Take

  predicate MayAcquire(held: seq<Lock>, l: Lock) { held == [] || Level(held[|held| - 1]) < Level(l) }

  predicate MayRelease(held: seq<Lock>, l: Lock) { held != [] && held[|held| - 1] == l }

  /** The locks held after some operations, the last one taken being the first given back; None
      if a lock is taken whose level does not rise or one given back out of turn. */
  function Track(held: seq<Lock>, ops: seq<Op>): Option<seq<Lock>>
    decreases |ops|
  {
    if ops == [] then Some(held)
    else
      match ops[0]
      case Acquire(l) => if MayAcquire(held, l) then Track(held + [l], ops[1..]) else None
      case Release(l) => if MayRelease(held, l) then Track(held[..|held| - 1], ops[1..]) else None
      case Take => Track(held, ops[1..])
  }

  /** The operations follow the levels and end with the locks they began with. */
  predicate Balanced(held: seq<Lock>, ops: seq<Op>) { Track(held, ops) == Some(held) }

  predicate Rising(held: seq<Lock>) { forall i, j :: 0 <= i < j < |held| ==> Level(held[i]) < Level(held[j]) }

  // ----- the operations -----

  function If<T>(c: bool, s: seq<T>): seq<T> { if c then s else [] }

  /** A lock given back for the time of some operations. */
  function Outside(c: bool, l: Lock, inner: seq<Op>): seq<Op> {
    if c then [Release(l)] + inner + [Acquire(l)] else inner
  }

  /** Awaiting a semaphore: resource record, resource table, session record and session table
      are given back, as far as they were held, and taken again in the opposite order. */
  function Wait(sessions: bool, k: nat, resources: bool, r: Option<nat>): seq<Op> {
    Outside(r.Some?, RecordLock(r), Outside(resources, ResourceTable, Outside(true, SessionRecord(k), Outside(sessions, SessionTable, [Take]))))
  }

  function RecordLock(r: Option<nat>): Lock { ResourceRecord(if r.Some? then r.value else 0) }

  /** Cancelling a read of the session, with the resource's record held. */
  function Cancel(k: nat, resources: bool, r: nat): seq<Op> { Wait(false, k, resources, Some(r)) }

  /** Work on one resource record, in which a read may have to be cancelled. */
  function OnRecord(k: nat, r: nat, resources: bool, cancels: bool): seq<Op> {
    [Acquire(ResourceRecord(r))] + If(cancels, Cancel(k, resources, r)) + [Release(ResourceRecord(r))]
  }

  /** Reading, giving a loan back and cancelling a read lock one record after another; `work`
      says which and where a read is cancelled. */
  datatype Work = Work(resource: nat, cancels: bool)

  function OnRecords(k: nat, work: seq<Work>, resources: bool): seq<Op> {
    if work == [] then [] else OnRecord(k, work[0].resource, resources, work[0].cancels) + OnRecords(k, work[1..], resources)
  }

  /** Creating, attaching, detaching and native deletion lock the resource table and, under
      it, one record after another. */
  function OnResources(k: nat, work: seq<Work>): seq<Op> {
    [Acquire(ResourceTable)] + OnRecords(k, work, true) + [Release(ResourceTable)]
  }

  /** What an operation does with a session it has locked. */
  datatype Part = Records(work: seq<Work>) | Resources(work: seq<Work>) | AwaitTimer

  function OnPart(k: nat, sessions: bool, p: Part): seq<Op> {
    match p
    case Records(work) => OnRecords(k, work, false)
    case Resources(work) => OnResources(k, work)
    case AwaitTimer => Wait(sessions, k, false, None)
  }

  function OnParts(k: nat, sessions: bool, parts: seq<Part>): seq<Op> {
    if parts == [] then [] else OnPart(k, sessions, parts[0]) + OnParts(k, sessions, parts[1..])
  }

  datatype Visit = Visit(session: nat, parts: seq<Part>)

  function OnVisit(sessions: bool, v: Visit): seq<Op> {
    [Acquire(SessionRecord(v.session))] + OnParts(v.session, sessions, v.parts) + [Release(SessionRecord(v.session))]
  }

  function OnSessions(sessions: bool, visits: seq<Visit>): seq<Op> {
    if visits == [] then [] else OnVisit(sessions, visits[0]) + OnSessions(sessions, visits[1..])
  }

  /** An operation of the agent on its tables: a client's request, a timer or data event and the
      sweep of reads visit sessions without the session table; the clean-up of sessions and of
      resources holds it. */
  function Script(sessions: bool, visits: seq<Visit>): seq<Op> {
    If(sessions, [Acquire(SessionTable)]) + OnSessions(sessions, visits) + If(sessions, [Release(SessionTable)])
  }

  // ----- every operation keeps the order -----

  lemma {:induction false} TrackThen(held: seq<Lock>, a: seq<Op>, b: seq<Op>)
    ensures Track(held, a + b) == if Track(held, a).Some? then Track(Track(held, a).value, b) else None
    decreases |a|
  {
    if a == [] {
      assert a + b == b;
    } else {
      assert (a + b)[0] == a[0] && (a + b)[1..] == a[1..] + b;
      match a[0] {
        case Acquire(l) =>
          if MayAcquire(held, l) {
            TrackThen(held + [l], a[1..], b);
          }
        case Release(l) =>
          if MayRelease(held, l) {
            TrackThen(held[..|held| - 1], a[1..], b);
          }
        case Take => TrackThen(held, a[1..], b);
      }
    }
  }

  lemma BalancedThen(held: seq<Lock>, a: seq<Op>, b: seq<Op>)
    requires Balanced(held, a) && Balanced(held, b)
    ensures Balanced(held, a + b)
  {
    TrackThen(held, a, b);
  }

  /** Something balanced may be wrapped into a lock of a higher level than those held. */
  lemma BalancedInside(held: seq<Lock>, l: Lock, inner: seq<Op>)
    requires MayAcquire(held, l) && Balanced(held + [l], inner)
    ensures Balanced(held, [Acquire(l)] + inner + [Release(l)])
  {
    TrackThen(held, [Acquire(l)], inner);
    TrackThen(held, [Acquire(l)] + inner, [Release(l)]);
    assert (held + [l])[..|held|] == held;
    assert [Acquire(l)][1..] == [] && [Release(l)][1..] == [];
  }

  /** Giving the last lock back for something balanced below it, and taking it again. */
  lemma BalancedOutside(held: seq<Lock>, l: Lock, inner: seq<Op>)
    requires MayAcquire(held, l) && Balanced(held, inner)
    ensures Balanced(held + [l], [Release(l)] + inner + [Acquire(l)])
  {
    TrackThen(held + [l], [Release(l)], inner);
    TrackThen(held + [l], [Release(l)] + inner, [Acquire(l)]);
    assert (held + [l])[..|held|] == held;
    assert [Acquire(l)][1..] == [] && [Release(l)][1..] == [];
  }

  /** The locks a worker on session `k` holds on top of `base`. */
  function Held(base: seq<Lock>, sessions: bool, k: nat, resources: bool, r: Option<nat>): seq<Lock> {
    base + If(sessions, [SessionTable]) + [SessionRecord(k)] + If(resources, [ResourceTable]) + If(r.Some?, [RecordLock(r)])
  }

  /** Below what a worker on a session holds there may be the session table, if the wait does
      not give it back. */
  predicate IsBase(base: seq<Lock>, sessions: bool) { base == [] || (base == [SessionTable] && !sessions) }

  /** Awaiting a semaphore gives back exactly the locks it was entered with. */
  lemma WaitBalanced(base: seq<Lock>, sessions: bool, k: nat, resources: bool, r: Option<nat>)
    requires IsBase(base, sessions)
    ensures Balanced(Held(base, sessions, k, resources, r), Wait(sessions, k, resources, r))
  {
    assert [Take][1..] == [];
    var h1 := base + If(sessions, [SessionTable]);
    var w1 := Outside(sessions, SessionTable, [Take]);
    if sessions {
      BalancedOutside(base, SessionTable, [Take]);
    }
    assert h1 == if sessions then base + [SessionTable] else base;
    BalancedOutside(h1, SessionRecord(k), w1);
    var h2 := h1 + [SessionRecord(k)];
    var w2 := Outside(true, SessionRecord(k), w1);
    if resources {
      BalancedOutside(h2, ResourceTable, w2);
    }
    var h3 := h2 + If(resources, [ResourceTable]);
    assert h3 == if resources then h2 + [ResourceTable] else h2;
    var w3 := Outside(resources, ResourceTable, w2);
    if r.Some? {
      BalancedOutside(h3, RecordLock(r), w3);
    }
    assert h3 + If(r.Some?, [RecordLock(r)]) == if r.Some? then h3 + [RecordLock(r)] else h3;
  }

  lemma {:induction false} RecordsBalanced(base: seq<Lock>, k: nat, work: seq<Work>, resources: bool)
    requires IsBase(base, false)
    ensures Balanced(Held(base, false, k, resources, None), OnRecords(k, work, resources))
    decreases |work|
  {
    if work != [] {
      var held, r := Held(base, false, k, resources, None), work[0].resource;
      RecordsBalanced(base, k, work[1..], resources);
      WaitBalanced(base, false, k, resources, Some(r));
      assert held + [ResourceRecord(r)] == Held(base, false, k, resources, Some(r));
      BalancedInside(held, ResourceRecord(r), If(work[0].cancels, Cancel(k, resources, r)));
      BalancedThen(held, OnRecord(k, r, resources, work[0].cancels), OnRecords(k, work[1..], resources));
    }
  }

  lemma PartBalanced(sessions: bool, k: nat, p: Part)
    ensures Balanced(If(sessions, [SessionTable]) + [SessionRecord(k)], OnPart(k, sessions, p))
  {
    var base := If(sessions, [SessionTable]);
    var held := base + [SessionRecord(k)];
    assert held == Held(base, false, k, false, None);
    match p {
      case Records(work) => RecordsBalanced(base, k, work, false);
      case Resources(work) =>
        RecordsBalanced(base, k, work, true);
        assert held + [ResourceTable] == Held(base, false, k, true, None);
        BalancedInside(held, ResourceTable, OnRecords(k, work, true));
      case AwaitTimer =>
        WaitBalanced([], sessions, k, false, None);
        assert held == Held([], sessions, k, false, None);
    }
  }

  lemma {:induction false} PartsBalanced(sessions: bool, k: nat, parts: seq<Part>)
    ensures Balanced(If(sessions, [SessionTable]) + [SessionRecord(k)], OnParts(k, sessions, parts))
    decreases |parts|
  {
    if parts != [] {
      PartBalanced(sessions, k, parts[0]);
      PartsBalanced(sessions, k, parts[1..]);
      BalancedThen(If(sessions, [SessionTable]) + [SessionRecord(k)], OnPart(k, sessions, parts[0]), OnParts(k, sessions, parts[1..]));
    }
  }

  lemma VisitBalanced(sessions: bool, v: Visit)
    ensures Balanced(If(sessions, [SessionTable]), OnVisit(sessions, v))
  {
    PartsBalanced(sessions, v.session, v.parts);
    BalancedInside(If(sessions, [SessionTable]), SessionRecord(v.session), OnParts(v.session, sessions, v.parts));
  }

  lemma {:induction false} SessionsBalanced(sessions: bool, visits: seq<Visit>)
    ensures Balanced(If(sessions, [SessionTable]), OnSessions(sessions, visits))
    decreases |visits|
  {
    if visits != [] {
      VisitBalanced(sessions, visits[0]);
      SessionsBalanced(sessions, visits[1..]);
      BalancedThen(If(sessions, [SessionTable]), OnVisit(sessions, visits[0]), OnSessions(sessions, visits[1..]));
    }
  }

  /** Every operation takes locks in strictly rising level and ends without any. */
  lemma ScriptBalanced(sessions: bool, visits: seq<Visit>)
    ensures Balanced([], Script(sessions, visits))
  {
    SessionsBalanced(sessions, visits);
    if sessions {
      assert [] + [SessionTable] == [SessionTable];
      BalancedInside([], SessionTable, OnSessions(sessions, visits));
    } else {
      assert Script(sessions, visits) == OnSessions(sessions, visits);
    }
  }

  // ----- what is locked under what -----

  /** Somewhere among the operations the lock is taken, by a worker that then holds just `under`. */
  ghost predicate TakesUnder(held: seq<Lock>, ops: seq<Op>, l: Lock, under: seq<Lock>) {
    exists p :: 0 <= p < |ops| && ops[p] == Acquire(l) && Track(held, ops[..p]) == Some(under)
  }

  lemma TakesAfter(held: seq<Lock>, a: seq<Op>, mid: seq<Lock>, b: seq<Op>, c: seq<Op>, l: Lock, under: seq<Lock>)
    requires Track(held, a) == Some(mid) && TakesUnder(mid, b, l, under)
    ensures TakesUnder(held, a + b + c, l, under)
  {
    var p :| 0 <= p < |b| && b[p] == Acquire(l) && Track(mid, b[..p]) == Some(under);
    var all := a + b + c;
    assert all[|a| + p] == b[p] && all[..|a| + p] == a + b[..p];
    TrackThen(held, a, b[..p]);
  }

  lemma FirstTakes(held: seq<Lock>, first: seq<Op>, rest: seq<Op>, l: Lock, under: seq<Lock>)
    requires TakesUnder(held, first, l, under)
    ensures TakesUnder(held, first + rest, l, under)
  {
    assert [] + first + rest == first + rest;
    TakesAfter(held, [], held, first, rest, l, under);
  }

  lemma LaterTakes(held: seq<Lock>, first: seq<Op>, rest: seq<Op>, l: Lock, under: seq<Lock>)
    requires Balanced(held, first) && TakesUnder(held, rest, l, under)
    ensures TakesUnder(held, first + rest, l, under)
  {
    assert first + rest + [] == first + rest;
    TakesAfter(held, first, held, rest, [], l, under);
  }

  lemma {:induction false} RecordsTake(base: seq<Lock>, k: nat, work: seq<Work>, resources: bool, w: nat)
    requires IsBase(base, false) && w < |work|
    ensures var held := Held(base, false, k, resources, None);
            TakesUnder(held, OnRecords(k, work, resources), ResourceRecord(work[w].resource), held)
    decreases |work|
  {
    var held := Held(base, false, k, resources, None);
    var first, rest := OnRecord(k, work[0].resource, resources, work[0].cancels), OnRecords(k, work[1..], resources);
    assert first[0] == Acquire(ResourceRecord(work[0].resource)) && first[..0] == [];
    if w == 0 {
      assert TakesUnder(held, first, ResourceRecord(work[0].resource), held);
      FirstTakes(held, first, rest, ResourceRecord(work[0].resource), held);
    } else {
      RecordsBalanced(base, k, work[..1], resources);
      assert OnRecords(k, work[..1], resources) == first + OnRecords(k, work[..1][1..], resources) == first;
      RecordsTake(base, k, work[1..], resources, w - 1);
      LaterTakes(held, first, rest, ResourceRecord(work[w].resource), held);
    }
  }

  /** The records that a part works on. */
  function WorkOf(p: Part): seq<Work> { if p.AwaitTimer? then [] else p.work }

  /** Creating, attaching, detaching and deleting work under the resource table. */
  function Under(sessions: bool, k: nat, p: Part): seq<Lock> {
    If(sessions, [SessionTable]) + [SessionRecord(k)] + If(p.Resources?, [ResourceTable])
  }

  lemma PartTakes(sessions: bool, k: nat, p: Part, w: nat)
    requires w < |WorkOf(p)|
    ensures TakesUnder(If(sessions, [SessionTable]) + [SessionRecord(k)], OnPart(k, sessions, p),
                       ResourceRecord(WorkOf(p)[w].resource), Under(sessions, k, p))
  {
    var base := If(sessions, [SessionTable]);
    var held := base + [SessionRecord(k)];
    assert held == Held(base, false, k, false, None);
    if p.Records? {
      RecordsTake(base, k, p.work, false, w);
      assert Under(sessions, k, p) == held;
    } else {
      RecordsTake(base, k, p.work, true, w);
      assert held + [ResourceTable] == Held(base, false, k, true, None) == Under(sessions, k, p);
      assert [Acquire(ResourceTable)][1..] == [];
      assert Track(held, [Acquire(ResourceTable)]) == Some(held + [ResourceTable]);
      TakesAfter(held, [Acquire(ResourceTable)], held + [ResourceTable], OnRecords(k, p.work, true), [Release(ResourceTable)],
                 ResourceRecord(p.work[w].resource), Under(sessions, k, p));
    }
  }

  lemma {:induction false} PartsTake(sessions: bool, k: nat, parts: seq<Part>, p: nat, w: nat)
    requires p < |parts| && w < |WorkOf(parts[p])|
    ensures TakesUnder(If(sessions, [SessionTable]) + [SessionRecord(k)], OnParts(k, sessions, parts),
                       ResourceRecord(WorkOf(parts[p])[w].resource), Under(sessions, k, parts[p]))
    decreases |parts|
  {
    var held := If(sessions, [SessionTable]) + [SessionRecord(k)];
    var l := ResourceRecord(WorkOf(parts[p])[w].resource);
    var first, rest := OnPart(k, sessions, parts[0]), OnParts(k, sessions, parts[1..]);
    if p == 0 {
      PartTakes(sessions, k, parts[0], w);
      FirstTakes(held, first, rest, l, Under(sessions, k, parts[0]));
    } else {
      PartBalanced(sessions, k, parts[0]);
      PartsTake(sessions, k, parts[1..], p - 1, w);
      LaterTakes(held, first, rest, l, Under(sessions, k, parts[p]));
    }
  }

  lemma VisitTakes(sessions: bool, v: Visit, p: nat, w: nat)
    requires p < |v.parts| && w < |WorkOf(v.parts[p])|
    ensures TakesUnder(If(sessions, [SessionTable]), OnVisit(sessions, v),
                       ResourceRecord(WorkOf(v.parts[p])[w].resource), Under(sessions, v.session, v.parts[p]))
  {
    var held := If(sessions, [SessionTable]);
    PartsTake(sessions, v.session, v.parts, p, w);
    assert [Acquire(SessionRecord(v.session))][1..] == [];
    assert Track(held, [Acquire(SessionRecord(v.session))]) == Some(held + [SessionRecord(v.session)]);
    TakesAfter(held, [Acquire(SessionRecord(v.session))], held + [SessionRecord(v.session)], OnParts(v.session, sessions, v.parts),
               [Release(SessionRecord(v.session))], ResourceRecord(WorkOf(v.parts[p])[w].resource), Under(sessions, v.session, v.parts[p]));
  }

  lemma {:induction false} SessionsTake(sessions: bool, visits: seq<Visit>, v: nat, p: nat, w: nat)
    requires v < |visits| && p < |visits[v].parts| && w < |WorkOf(visits[v].parts[p])|
    ensures TakesUnder(If(sessions, [SessionTable]), OnSessions(sessions, visits),
                       ResourceRecord(WorkOf(visits[v].parts[p])[w].resource), Under(sessions, visits[v].session, visits[v].parts[p]))
    decreases |visits|
  {
    var held := If(sessions, [SessionTable]);
    var l := ResourceRecord(WorkOf(visits[v].parts[p])[w].resource);
    var under := Under(sessions, visits[v].session, visits[v].parts[p]);
    if v == 0 {
      VisitTakes(sessions, visits[0], p, w);
      FirstTakes(held, OnVisit(sessions, visits[0]), OnSessions(sessions, visits[1..]), l, under);
    } else {
      VisitBalanced(sessions, visits[0]);
      SessionsTake(sessions, visits[1..], v - 1, p, w);
      LaterTakes(held, OnVisit(sessions, visits[0]), OnSessions(sessions, visits[1..]), l, under);
    }
  }

  /** Every record that an operation works on is locked under its session's lock, under the resource
      table when resources are created, attached, detached or deleted, and under the session table in
      a clean-up: just these are held then. */
  lemma EveryRecordLocked(sessions: bool, visits: seq<Visit>, v: nat, p: nat, w: nat)
    requires v < |visits| && p < |visits[v].parts| && w < |WorkOf(visits[v].parts[p])|
    ensures TakesUnder([], Script(sessions, visits), ResourceRecord(WorkOf(visits[v].parts[p])[w].resource),
                       Under(sessions, visits[v].session, visits[v].parts[p]))
  {
    var l := ResourceRecord(WorkOf(visits[v].parts[p])[w].resource);
    var first := If(sessions, [Acquire(SessionTable)]);
    SessionsTake(sessions, visits, v, p, w);
    assert sessions ==> [Acquire(SessionTable)][1..] == [];
    assert [] + [SessionTable] == [SessionTable];
    assert Track([], first) == Some(If(sessions, [SessionTable]));
    TakesAfter([], first, If(sessions, [SessionTable]), OnSessions(sessions, visits), If(sessions, [Release(SessionTable)]), l,
               Under(sessions, visits[v].session, visits[v].parts[p]));
  }

  // ----- workers waiting for each other -----

  /** A worker: the locks it holds and what it has still to do. */
  datatype Worker = Worker(held: seq<Lock>, rest: seq<Op>)

  predicate Free(ws: seq<Worker>, l: Lock) { forall i :: 0 <= i < |ws| ==> l !in ws[i].held }

  /** Worker `i` does its next operation; it cannot while another holds the lock it wants. */
  function Step(ws: seq<Worker>, i: nat): seq<Worker> {
    if i >= |ws| || ws[i].rest == [] then ws
    else
      var w := ws[i];
      match w.rest[0]
      case Acquire(l) => if Free(ws, l) then ws[i := Worker(w.held + [l], w.rest[1..])] else ws
      case Release(l) => if MayRelease(w.held, l) then ws[i := Worker(w.held[..|w.held| - 1], w.rest[1..])] else ws
      case Take => ws[i := Worker(w.held, w.rest[1..])]
  }

  function Run(ws: seq<Worker>, turns: seq<nat>): seq<Worker>
    decreases |turns|
  {
    if turns == [] then ws else Run(Step(ws, turns[0]), turns[1..])
  }

  /** A job starts without locks and does one of the agent's operations. */
  datatype Job = Job(sessions: bool, visits: seq<Visit>)

  function Start(jobs: seq<Job>): (ws: seq<Worker>)
    ensures |ws| == |jobs| && forall i :: 0 <= i < |ws| ==> ws[i] == Worker([], Script(jobs[i].sessions, jobs[i].visits))
  {
    if jobs == [] then [] else [Worker([], Script(jobs[0].sessions, jobs[0].visits))] + Start(jobs[1..])
  }

  ghost predicate Orderly(w: Worker) { Rising(w.held) && Track(w.held, w.rest) == Some([]) }

  ghost predicate AllOrderly(ws: seq<Worker>) { forall i :: 0 <= i < |ws| ==> Orderly(ws[i]) }

  lemma {:induction false} RunOrderly(ws: seq<Worker>, turns: seq<nat>)
    requires AllOrderly(ws)
    ensures AllOrderly(Run(ws, turns)) && |Run(ws, turns)| == |ws|
    decreases |turns|
  {
    if turns != [] {
      RunOrderly(Step(ws, turns[0]), turns[1..]);
    }
  }

  /** No lock is in two workers' hands. */
  ghost predicate Apart(ws: seq<Worker>) {
    forall i, j, l :: 0 <= i < j < |ws| && l in ws[i].held ==> l !in ws[j].held
  }

  lemma StepApart(ws: seq<Worker>, i: nat)
    requires Apart(ws)
    ensures Apart(Step(ws, i)) && |Step(ws, i)| == |ws|
  {
  }

  lemma {:induction false} RunApart(ws: seq<Worker>, turns: seq<nat>)
    requires Apart(ws)
    ensures Apart(Run(ws, turns)) && |Run(ws, turns)| == |ws|
    decreases |turns|
  {
    if turns != [] {
      StepApart(ws, turns[0]);
      RunApart(Step(ws, turns[0]), turns[1..]);
    }
  }

  /** In any interleaving no two workers hold the same lock. */
  lemma OneHolder(jobs: seq<Job>, turns: seq<nat>)
    ensures Apart(Run(Start(jobs), turns))
  {
    RunApart(Start(jobs), turns);
  }

  /** Worker `i` wants a lock that worker `j` holds. */
  predicate WaitsFor(ws: seq<Worker>, i: nat, j: nat) {
    i < |ws| && j < |ws| && ws[i].rest != [] && ws[i].rest[0].Acquire? && ws[i].rest[0].l in ws[j].held
  }

  /** A chain of workers each waiting for the next. */
  predicate Chain(ws: seq<Worker>, c: seq<nat>) {
    |c| >= 2 && forall k :: 0 <= k < |c| - 1 ==> WaitsFor(ws, c[k], c[k + 1])
  }

  function Wants(ws: seq<Worker>, i: nat): nat
    requires i < |ws| && ws[i].rest != [] && ws[i].rest[0].Acquire?
  {
    Level(ws[i].rest[0].l)
  }

  /** Along a chain the levels of the locks wanted strictly rise. */
  lemma {:induction false} LevelsRise(ws: seq<Worker>, c: seq<nat>, k: nat)
    requires AllOrderly(ws) && Chain(ws, c) && k < |c| - 1
    ensures WaitsFor(ws, c[0], c[1]) && WaitsFor(ws, c[k], c[k + 1])
    ensures Wants(ws, c[0]) + k <= Wants(ws, c[k])
    decreases k
  {
    assert WaitsFor(ws, c[0], c[1]);
    if k > 0 {
      LevelsRise(ws, c, k - 1);
      assert WaitsFor(ws, c[k - 1], c[k]) && WaitsFor(ws, c[k], c[k + 1]);
      WantsMore(ws[c[k]], ws[c[k - 1]].rest[0].l);
    }
  }

  /** An orderly worker wants a lock of a higher level than any it holds. */
  lemma WantsMore(w: Worker, l: Lock)
    requires Orderly(w) && l in w.held && w.rest != [] && w.rest[0].Acquire?
    ensures Level(l) < Level(w.rest[0].l)
  {
    var i :| 0 <= i < |w.held| && w.held[i] == l;
    assert Level(w.held[i]) <= Level(w.held[|w.held| - 1]);
  }

  lemma StartOrderly(jobs: seq<Job>)
    ensures AllOrderly(Start(jobs))
  {
    forall i | 0 <= i < |jobs|
      ensures Orderly(Start(jobs)[i])
    {
      ScriptBalanced(jobs[i].sessions, jobs[i].visits);
    }
  }

  lemma ChainEnds(ws: seq<Worker>, c: seq<nat>)
    requires AllOrderly(ws) && Chain(ws, c)
    ensures c[0] != c[|c| - 1] && |c| <= 5
  {
    var k := |c| - 2;
    LevelsRise(ws, c, k);
    if c[0] == c[k + 1] {
      WantsMore(ws[c[0]], ws[c[k]].rest[0].l);
      assert false;
    }
  }

  /** However many operations run in whatever interleaving, no workers ever wait for each other
      in a circle, and no worker waits behind a chain of more than three others. */
  lemma NoCircle(jobs: seq<Job>, turns: seq<nat>, c: seq<nat>)
    requires Chain(Run(Start(jobs), turns), c)
    ensures c[0] != c[|c| - 1] && |c| <= 5
  {
    StartOrderly(jobs);
    RunOrderly(Start(jobs), turns);
    ChainEnds(Run(Start(jobs), turns), c);
  }

  // ----- the wait itself -----

  /** A worker's own view of its locks; `kept` is what it held when it last took a semaphore. */
  class LockHolder {
    var held: seq<Lock>
    ghost var kept: seq<Lock>

    constructor (held: seq<Lock>)
      ensures this.held == held
    {
      this.held, kept := held, [];
    }

    method Lock(l: Lock)
      requires MayAcquire(held, l)
      modifies `held
      ensures held == old(held) + [l]
    {
      held := held + [l];
    }

    method Unlock(l: Lock)
      requires MayRelease(held, l)
      modifies `held
      ensures held == old(held)[..|old(held)| - 1]
    {
      held := held[..|held| - 1];
    }

    method GiveBack(base: seq<Lock>, lockedSessions: bool, session: nat, lockedResources: bool, resource: Option<nat>)
      requires held == Held(base, lockedSessions, session, lockedResources, resource)
      modifies `held
      ensures held == base
    {
      if resource.Some? {
        Unlock(RecordLock(resource));
      }
      assert held == base + If(lockedSessions, [SessionTable]) + [SessionRecord(session)] + If(lockedResources, [ResourceTable]);
      if lockedResources {
        Unlock(ResourceTable);
      }
      assert held == base + If(lockedSessions, [SessionTable]) + [SessionRecord(session)];
      Unlock(SessionRecord(session));
      assert held == base + If(lockedSessions, [SessionTable]);
      if lockedSessions {
        Unlock(SessionTable);
      }
    }

    method TakeAgain(base: seq<Lock>, lockedSessions: bool, session: nat, lockedResources: bool, resource: Option<nat>)
      requires IsBase(base, lockedSessions) && held == base
      modifies `held
      ensures held == Held(base, lockedSessions, session, lockedResources, resource)
    {
      if lockedSessions {
        Lock(SessionTable);
      }
      assert held == base + If(lockedSessions, [SessionTable]);
      Lock(SessionRecord(session));
      assert held == base + If(lockedSessions, [SessionTable]) + [SessionRecord(session)];
      if lockedResources {
        Lock(ResourceTable);
      }
      assert held == base + If(lockedSessions, [SessionTable]) + [SessionRecord(session)] + If(lockedResources, [ResourceTable]);
      if resource.Some? {
        Lock(RecordLock(resource));
      }
    }

    /** Gives the locks back as its flags say, takes the semaphore, and locks again. */
    method WaitForSemaphore(base: seq<Lock>, lockedSessions: bool, session: nat, lockedResources: bool, resource: Option<nat>)
      requires IsBase(base, lockedSessions) && held == Held(base, lockedSessions, session, lockedResources, resource)
      modifies this
      ensures held == old(held) && kept == base
    {
      GiveBack(base, lockedSessions, session, lockedResources, resource);
      kept := held;
      TakeAgain(base, lockedSessions, session, lockedResources, resource);
    }
  }
}
