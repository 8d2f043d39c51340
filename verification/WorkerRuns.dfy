/** Every run of the system keeps its invariant, and what follows from it: which workers are
    ever refused the cancellation of a read, and who closes a session. */
module WorkerRuns {
  import opened SessionState
  import opened Loans
  import Dismissal
  import opened Workers
  import opened WorkerFrames
  import opened WorkerSafety

  // ----- putting a worker's progress into the system -----

  function Put(ws: seq<Worker>, w: nat, worker: Worker): (r: seq<Worker>)
    requires w <= |ws|
    ensures w < |r| && r[w] == worker && |ws| <= |r| <= |ws| + 1
    ensures forall v :: 0 <= v < |ws| && v != w ==> r[v] == ws[v]
    ensures |r| == |ws| + 1 ==> w == |ws|
  {
    if w < |ws| then ws[w := worker] else ws + [worker]
  }

  /** The cancellations that the other workers await are still under way. */
  ghost predicate OthersAwait(ws: seq<Worker>, w: nat, s: Session) {
    forall v :: 0 <= v < |ws| && v != w && Awaited(ws[v].prog).Some? ==> Closed(s, Awaited(ws[v].prog).value)
  }

  /** No other worker of this kind is at work. */
  ghost predicate Alone(ws: seq<Worker>, w: nat, who: Who) {
    OneAtATime(who) ==> forall v :: 0 <= v < |ws| && v != w && ws[v].who == who ==> ws[v].prog == []
  }

  /** What a worker of each kind may do to the life-cycle flags: the cleaner lets the closer
      go on, or takes away the record itself when the timer was first; the closer takes it
      away otherwise; timer, resetter and closer set their own flags on an active session. */
  predicate Moves(who: Who, l: Life, l': Life) {
    || l' == l
    || (who.Cleaner? && l.deleted && !l.timedout && l' == l.(cleaned := true))
    || (who.Cleaner? && l.deleted && l.timedout && l.present && l' == l.(present := false, closed := l.closed + 1))
    || (who.Closer? && l.deleted && !l.timedout && l.present && l' == l.(present := false, closed := l.closed + 1))
    || (who.Timer? && (l.timedout || l.Active()) && !l.deleted && l' == l.(timedout := true, disposed := true, deleted := l'.deleted))
    || (who.Resetter? && (l.resetting || l.Active()) && l' == l.(resetting := l'.resetting))
    || (who.Closer? && l.Active() && l' == l.(disposed := true, deleted := l'.deleted))
  }

  predicate Sane(l: Life) {
    && l.closed == (if l.present then 0 else 1)
    && (l.timedout ==> l.disposed) && (l.deleted ==> l.disposed)
  }

  lemma AwaitPut(sys: System, w: nat, s: Session, worker: Worker, t: Session)
    requires AwaitInv(sys) && w <= |sys.ws| && OthersAwait(sys.ws, w, s)
    requires Framed(s, t, Awaited(worker.prog))
    ensures AwaitInv(System(t, Put(sys.ws, w, worker)))
  {
    var ws := Put(sys.ws, w, worker);
    forall v, u | 0 <= v < u < |ws| && Awaited(ws[v].prog).Some?
      ensures Awaited(ws[v].prog) != Awaited(ws[u].prog)
    {
      if v == w {
        assert ws[u] == sys.ws[u];
      } else if u == w {
        assert ws[v] == sys.ws[v];
      }
    }
  }

  lemma OthersLife(sys: System, w: nat, who: Who, l: Life, empty: bool)
    requires SysInv(sys) && Alone(sys.ws, w, who) && Moves(who, sys.s.life, l)
    requires sys.s.forwards == [] ==> empty
    ensures forall v :: 0 <= v < |sys.ws| && v != w ==> WorkerLife(sys.ws[v], l, empty)
  {
    forall v | 0 <= v < |sys.ws| && v != w
      ensures WorkerLife(sys.ws[v], l, empty)
    {
      assert WorkerLife(sys.ws[v], sys.s.life, sys.s.forwards == []);
    }
  }

  /** The worker that was to leave a disposed client without forward requests either has, or
      is still at it. */
  predicate Handled(l: Life, ws: seq<Worker>, w: nat, worker: Worker, l': Life, empty: bool) {
    ((w < |ws| && Disposing(ws[w])) || (!l.disposed && l'.disposed)) && l'.present ==> empty || Disposing(worker)
  }

  lemma SessionPut(sys: System, w: nat, worker: Worker, l: Life, empty: bool)
    requires SysInv(sys) && w <= |sys.ws| && Sane(l)
    requires Handled(sys.s.life, sys.ws, w, worker, l, empty)
    requires sys.s.forwards == [] ==> empty
    requires l.present ==> sys.s.life.present
    ensures SessionLife(l, empty, Put(sys.ws, w, worker))
  {
    var ws := Put(sys.ws, w, worker);
    if l.present && l.disposed && !empty {
      if Disposing(worker) {
        assert Disposing(ws[w]);
      } else {
        assert sys.s.life.disposed;
        var v :| 0 <= v < |sys.ws| && Disposing(sys.ws[v]);
        assert ws[v] == sys.ws[v];
      }
    }
  }

  /** A worker's progress `p`, made from session `s1`, fits into the system at `w`. */
  ghost predicate Fits(sys: System, w: nat, s1: Session, who: Who, p: Progress)
    requires w <= |sys.ws|
  {
    var worker := Worker(who, p.prog);
    && OthersAwait(sys.ws, w, s1) && Alone(sys.ws, w, who)
    && Sound(p.s) && Framed(s1, p.s, Awaited(p.prog)) && Careful(p.prog)
    && (sys.s.forwards == [] ==> p.s.forwards == [])
    && Told(sys, w, who, p)
  }

  ghost predicate Told(sys: System, w: nat, who: Who, p: Progress)
    requires w <= |sys.ws|
  {
    var worker := Worker(who, p.prog);
    && Shape(who, p.prog)
    && Moves(who, sys.s.life, p.s.life) && Sane(p.s.life)
    && WorkerLife(worker, p.s.life, p.s.forwards == [])
    && Handled(sys.s.life, sys.ws, w, worker, p.s.life, p.s.forwards == [])
  }

  lemma PutInv(sys: System, w: nat, s1: Session, who: Who, p: Progress)
    requires SysInv(sys) && w <= |sys.ws| && Fits(sys, w, s1, who, p)
    ensures SysInv(System(p.s, Put(sys.ws, w, Worker(who, p.prog))))
  {
    var worker := Worker(who, p.prog);
    AwaitPut(sys, w, s1, worker, p.s);
    OthersLife(sys, w, who, p.s.life, p.s.forwards == []);
    SessionPut(sys, w, worker, p.s.life, p.s.forwards == []);
  }

  // ----- steps that no worker is left waiting after -----

  /** The session may get new forward requests only while no worker counts on there being none. */
  lemma QuietInv(sys: System, t: Session)
    requires SysInv(sys) && Sound(t) && t.life == sys.s.life
    requires forall k :: Closed(sys.s, k) ==> Closed(t, k)
    requires (sys.s.forwards == [] ==> t.forwards == []) || Hears(sys.s)
    ensures SysInv(sys.(s := t))
  {
    forall w | 0 <= w < |sys.ws|
      ensures WorkerLife(sys.ws[w], t.life, t.forwards == [])
    {
      assert WorkerLife(sys.ws[w], sys.s.life, sys.s.forwards == []);
    }
  }

  lemma AttachInv(sys: System, id: ReaderId)
    requires SysInv(sys) && id !in sys.s.readers && id != EVERY_READER
    ensures SysInv(sys.(s := sys.s.(readers := sys.s.readers[id := Reader(None, 0, false, 0, 0)])))
  {
    var s := sys.s;
    var t := s.(readers := s.readers[id := Reader(None, 0, false, 0, 0)]);
    assert forall k :: HasRead(t, k) <==> HasRead(s, k);
    assert forall k :: HasRead(t, k) ==> ReadOf(t, k) == ReadOf(s, k);
    QuietInv(sys, t);
  }

  lemma ProcessFrame(s: Session, id: ReaderId, sn: int, now: int, d: Delivery)
    requires HasRead(s, id) && ReadOf(s, id).open
    requires d.Sent? ==> NextOnStream(s.queue, s.readers[id].stream, d.sn)
    ensures var t := ProcessSample(s, id, sn, now, d).s;
            && t.life == s.life && t.readers.Keys == s.readers.Keys
            && (forall k :: Closed(s, k) ==> Closed(t, k))
            && (s.life.disposed ==> t.forwards == s.forwards)
  {
  }

  lemma DataInv(sys: System, id: ReaderId, sn: int, now: int, d: Delivery)
    requires SysInv(sys) && Live(sys.s) && HasRead(sys.s, id) && ReadOf(sys.s, id).open
    requires d.Sent? ==> NextOnStream(sys.s.queue, sys.s.readers[id].stream, d.sn)
    ensures SysInv(sys.(s := ProcessSample(sys.s, id, sn, now, d).s))
  {
    ProcessKeepsInv(sys.s, id, sn, now, d);
    ProcessFrame(sys.s, id, sn, now, d);
    QuietInv(sys, ProcessSample(sys.s, id, sn, now, d).s);
  }

  lemma ExpireInv(sys: System, id: ReaderId)
    requires SysInv(sys) && HasRead(sys.s, id)
    ensures SysInv(sys.(s := WithRead(sys.s, id, Some(ReadOf(sys.s, id).(complete := true)))))
  {
    KeptSamples(sys.s, id, sys.s.readers[id].(read := Some(ReadOf(sys.s, id).(complete := true))));
    QuietInv(sys, WithRead(sys.s, id, Some(ReadOf(sys.s, id).(complete := true))));
  }

  lemma ReplyInv(sys: System, stream: StreamId, sn: nat)
    requires SysInv(sys) && NextOnStream(sys.s.queue, stream, sn)
    ensures SysInv(sys.(s := sys.s.(queue := sys.s.queue + [Message(stream, sn, false)])))
  {
    var s := sys.s;
    DataConcat(s.queue, [Message(stream, sn, false)]);
    SameReaders(s, s.queue + [Message(stream, sn, false)]);
    QuietInv(sys, s.(queue := s.queue + [Message(stream, sn, false)]));
  }

  // ----- steps that start a worker -----

  /** A new worker whose program is careful and whose run is as its kind demands fits in. */
  lemma LaunchInv(sys: System, s: Session, who: Who, prog: seq<Instr>, env: nat -> Env)
    requires SysInv(sys) && OthersAwait(sys.ws, |sys.ws|, s) && Alone(sys.ws, |sys.ws|, who)
    requires Sound(s) && Careful(prog) && Ready(s, prog) && (prog != [] ==> !prog[0].Await?)
    requires sys.s.forwards == [] ==> s.forwards == []
    requires Told(sys, |sys.ws|, who, Run(s, prog, env))
    ensures var t := Launch(sys, s, who, prog, env).sys; SysInv(t) && Moves(who, sys.s.life, t.s.life)
  {
    RunFrame(s, prog, env);
    PutInv(sys, |sys.ws|, s, who, Run(s, prog, env));
  }

  lemma OthersStillAwait(sys: System, s: Session)
    requires SysInv(sys) && (forall k :: Closed(sys.s, k) ==> Closed(s, k))
    ensures OthersAwait(sys.ws, |sys.ws|, s)
  {
  }

  lemma NobodyElse(sys: System, who: Who)
    requires SysInv(sys) && sys.s.life.Active()
    requires who.Closer? ==> !sys.s.life.disposed
    ensures Alone(sys.ws, |sys.ws|, who)
  {
    forall v | 0 <= v < |sys.ws| && sys.ws[v].who == who && OneAtATime(who)
      ensures sys.ws[v].prog == []
    {
      assert WorkerLife(sys.ws[v], sys.s.life, sys.s.forwards == []);
    }
  }

  lemma ReleaseLife(s: Session, i: nat, env: nat -> Env)
    requires i < |s.queue|
    ensures ReleaseMessage(s, i, env).s.life == s.life
  {
  }

  /** Workers of most kinds have only to leave the life-cycle flags alone. */
  lemma QuietTold(sys: System, w: nat, who: Who, p: Progress)
    requires SysInv(sys) && w <= |sys.ws| && (w < |sys.ws| ==> sys.ws[w].who == who) && !OneAtATime(who) && !who.Cleaner?
    requires p.s.life == sys.s.life && Shape(who, p.prog)
    ensures Told(sys, w, who, p)
  {
  }

  /** A worker that has only to await one cancellation. */
  lemma AwaitingInv(sys: System, p: Progress)
    requires SysInv(sys) && Sound(p.s) && Framed(sys.s, p.s, Awaited(p.prog)) && p.s.life == sys.s.life
    requires p.prog == [] || (|p.prog| == 1 && p.prog[0].Await?)
    ensures SysInv(System(p.s, sys.ws + [Worker(Releaser, p.prog)]))
  {
    QuietTold(sys, |sys.ws|, Releaser, p);
    OthersStillAwait(sys, sys.s);
    PutInv(sys, |sys.ws|, sys.s, Releaser, p);
  }

  lemma LaunchIs(sys: System, t: Session, prog: seq<Instr>, env: nat -> Env)
    requires prog == [] || Blocking(prog[0])
    ensures Launch(sys, t, Releaser, prog, env) == Stepped(System(t, sys.ws + [Worker(Releaser, prog)]), None)
  {
  }

  lemma ReleasedInv(sys: System, r: Outcome, env: nat -> Env)
    requires SysInv(sys) && Sound(r.s) && r.s.life == sys.s.life
    requires Framed(sys.s, r.s, if r.out.Completed? then Some(r.out.id) else None)
    ensures var l := Launch(sys, r.s, Releaser, if r.out.Completed? then [Await(r.out.id)] else [], env);
            SysInv(l.sys) && l.refused.None? && l.sys.s.life == sys.s.life
  {
    var prog := if r.out.Completed? then [Await(r.out.id)] else [];
    assert Awaited(prog) == if r.out.Completed? then Some(r.out.id) else None;
    LaunchIs(sys, r.s, prog, env);
    AwaitingInv(sys, Progress(r.s, prog, None));
  }

  lemma ReleaseInv(sys: System, i: nat, env: nat -> Env)
    requires SysInv(sys) && i < |sys.s.queue|
    ensures var r := ReleaseMessage(sys.s, i, env);
            var l := Launch(sys, r.s, Releaser, if r.out.Completed? then [Await(r.out.id)] else [], env);
            SysInv(l.sys) && l.refused.None? && l.sys.s.life == sys.s.life
  {
    ReleaseFrame(sys.s, i, env);
    ReleaseLife(sys.s, i, env);
    ReleasedInv(sys, ReleaseMessage(sys.s, i, env), env);
  }

  lemma CarefulRead(id: ReaderId, stream: StreamId, spec: ReadSpec)
    ensures Careful(ReadProgram(id, stream, spec)) && Careful(DeleteProgram(id)) && Careful(CloseProgram())
  {
    assert CloseProgram()[1] == Leave && CloseProgram()[2] == TryClose && CloseProgram()[3] == AwaitCleanup;
  }

  /** A READ request sets the reader's stream and stops forwarding until its read is made. */
  function Requested(s: Session, id: ReaderId, stream: StreamId): Session
    requires id in s.readers
  {
    s.(readers := s.readers[id := s.readers[id].(stream := stream, forward := false)])
  }

  lemma RequestedFrame(s: Session, id: ReaderId, stream: StreamId)
    requires Sound(s) && id in s.readers
    ensures Sound(Requested(s, id, stream)) && Framed(s, Requested(s, id, stream), None)
  {
    var a := s.readers[id].(stream := stream, forward := false);
    var t := Requested(s, id, stream);
    if HasRead(s, id) {
      KeptSamples(s, id, a);
    } else {
      assert forall k :: HasRead(t, k) == HasRead(s, k);
      assert forall k :: HasRead(t, k) ==> ReadOf(t, k) == ReadOf(s, k);
    }
  }

  lemma ReadInv(sys: System, id: ReaderId, stream: StreamId, spec: ReadSpec, env: nat -> Env)
    requires SysInv(sys) && id in sys.s.readers
    ensures var t := Launch(sys, Requested(sys.s, id, stream), Requester, ReadProgram(id, stream, spec), env).sys;
            SysInv(t) && Moves(Requester, sys.s.life, t.s.life)
  {
    var s := Requested(sys.s, id, stream);
    RequestedFrame(sys.s, id, stream);
    CarefulRead(id, stream, spec);
    OthersStillAwait(sys, s);
    RunRead(s, id, stream, spec, env);
    LaunchInv(sys, s, Requester, ReadProgram(id, stream, spec), env);
  }

  lemma DeleteInv(sys: System, id: ReaderId, env: nat -> Env)
    requires SysInv(sys) && id in sys.s.readers
    ensures var r := Launch(sys, sys.s, Deleter, DeleteProgram(id), env);
            SysInv(r.sys) && r.refused.None? && Moves(Deleter, sys.s.life, r.sys.s.life)
  {
    CarefulRead(id, 0, ReadSpec(FirstCached, 0, 0, 0, 0));
    RunDelete(sys.s, id, env);
    LaunchInv(sys, sys.s, Deleter, DeleteProgram(id), env);
  }

  lemma DeleteClientInv(sys: System, env: nat -> Env)
    requires SysInv(sys) && Hears(sys.s)
    ensures var s := sys.s.(life := sys.s.life.(disposed := true));
            var r := Launch(sys, s, Closer, CloseProgram(), env);
            SysInv(r.sys) && r.refused.None? && Moves(Closer, sys.s.life, r.sys.s.life)
  {
    var s := sys.s.(life := sys.s.life.(disposed := true));
    LifeFrame(sys.s, s.life);
    CarefulRead(0, 0, ReadSpec(FirstCached, 0, 0, 0, 0));
    OthersStillAwait(sys, s);
    NobodyElse(sys, Closer);
    RunClose(s, env);
    LaunchInv(sys, s, Closer, CloseProgram(), env);
  }

  /** The session once the timer has struck. */
  function Struck(s: Session): Session { s.(life := s.life.(timedout := true, disposed := true)) }

  lemma StruckFrame(sys: System)
    requires SysInv(sys) && Live(sys.s)
    ensures Sound(Struck(sys.s)) && OthersAwait(sys.ws, |sys.ws|, Struck(sys.s)) && Alone(sys.ws, |sys.ws|, Timer)
  {
    LifeFrame(sys.s, Struck(sys.s).life);
    OthersStillAwait(sys, Struck(sys.s));
    NobodyElse(sys, Timer);
  }

  /** The timer strikes while the client's DELETE is under way: nothing is dismissed. */
  lemma LateTimeoutInv(sys: System, env: nat -> Env)
    requires SysInv(sys) && Live(sys.s) && sys.s.life.disposed
    ensures var r := Launch(sys, Struck(sys.s), Timer, [Dispose], env);
            SysInv(r.sys) && r.refused.None? && Moves(Timer, sys.s.life, r.sys.s.life)
  {
    StruckFrame(sys);
    RunDispose(Struck(sys.s), env);
    LaunchInv(sys, Struck(sys.s), Timer, [Dispose], env);
  }

  lemma FirstTimeoutInv(sys: System, env: nat -> Env)
    requires SysInv(sys) && Live(sys.s) && !sys.s.life.disposed
    ensures var r := Launch(sys, Struck(sys.s), Timer, [Dismiss(ALL), Dispose], env);
            SysInv(r.sys) && r.refused.None? && Moves(Timer, sys.s.life, r.sys.s.life)
  {
    StruckFrame(sys);
    RunTimer(Struck(sys.s), env);
    LaunchInv(sys, Struck(sys.s), Timer, [Dismiss(ALL), Dispose], env);
  }

  lemma TimeoutInv(sys: System, env: nat -> Env)
    requires SysInv(sys) && Live(sys.s)
    ensures var r := Launch(sys, Struck(sys.s), Timer, (if sys.s.life.disposed then [] else [Dismiss(ALL)]) + [Dispose], env);
            SysInv(r.sys) && r.refused.None? && Moves(Timer, sys.s.life, r.sys.s.life)
  {
    if sys.s.life.disposed {
      assert [] + [Dispose] == [Dispose];
      LateTimeoutInv(sys, env);
    } else {
      assert [Dismiss(ALL)] + [Dispose] == [Dismiss(ALL), Dispose];
      FirstTimeoutInv(sys, env);
    }
  }

  lemma ResetCareful(order: seq<ReaderId>)
    ensures Careful(ResetProgram(order)) && ResetShape(ResetProgram(order))
    ensures Careful(CleanupProgram(order)) && CleanShape(CleanupProgram(order))
  {
  }

  lemma ResetInv(sys: System, order: seq<ReaderId>, env: nat -> Env)
    requires SysInv(sys) && Live(sys.s)
    ensures var s := sys.s.(life := sys.s.life.(resetting := true));
            var r := Launch(sys, s, Resetter, ResetProgram(order), env);
            SysInv(r.sys) && r.refused.None? && Moves(Resetter, sys.s.life, r.sys.s.life)
  {
    var s := sys.s.(life := sys.s.life.(resetting := true));
    LifeFrame(sys.s, s.life);
    OthersStillAwait(sys, s);
    NobodyElse(sys, Resetter);
    ResetCareful(order);
    RunReset(s, ResetProgram(order), env);
    RunUnrefused(s, ResetProgram(order), env);
    LaunchInv(sys, s, Resetter, ResetProgram(order), env);
  }

  lemma CleanupInv(sys: System, order: seq<ReaderId>, env: nat -> Env)
    requires SysInv(sys) && sys.s.life.present && sys.s.life.deleted
    ensures var t := Launch(sys, sys.s, Cleaner, CleanupProgram(order), env).sys;
            SysInv(t) && Moves(Cleaner, sys.s.life, t.s.life)
  {
    ResetCareful(order);
    RunClean(sys.s, CleanupProgram(order), env);
    LaunchInv(sys, sys.s, Cleaner, CleanupProgram(order), env);
  }

  /** A cleaner is refused only if forward requests are left in the session. */
  lemma CleanupUnrefused(sys: System, order: seq<ReaderId>, env: nat -> Env)
    requires SysInv(sys) && sys.s.forwards == []
    ensures Launch(sys, sys.s, Cleaner, CleanupProgram(order), env).refused.None?
  {
    ResetCareful(order);
    RunUnrefused(sys.s, CleanupProgram(order), env);
  }

  lemma SweepInv(sys: System, id: ReaderId, env: nat -> Env)
    requires SysInv(sys) && HasRead(sys.s, id)
    ensures var prog := if ReadOf(sys.s, id).samples != [] then [Dismiss(Match(Some(sys.s.readers[id].stream), id))] else [Cancel(id)];
            var r := Launch(sys, sys.s, Sweeper, prog, env);
            SysInv(r.sys) && r.refused.None? && Moves(Sweeper, sys.s.life, r.sys.s.life)
  {
    var i := if ReadOf(sys.s, id).samples != [] then Dismiss(Match(Some(sys.s.readers[id].stream), id)) else Cancel(id);
    RunSweep(sys.s, i, env);
    LaunchInv(sys, sys.s, Sweeper, [i], env);
  }

  // ----- steps that resume a worker -----

  /** Worker `w` awaits a cancellation that has come through. */
  predicate Awaiting(sys: System, w: nat) {
    w < |sys.ws| && sys.ws[w].prog != [] && sys.ws[w].prog[0].Await?
  }

  lemma ResumeStart(sys: System, w: nat)
    requires SysInv(sys) && Awaiting(sys, w)
    ensures var s := EndCancel(sys.s, sys.ws[w].prog[0].id);
            var rest := sys.ws[w].prog[1..];
            && Sound(s) && OthersAwait(sys.ws, w, s) && Careful(rest) && Ready(s, rest) && (rest != [] ==> !rest[0].Await?)
            && s.forwards == sys.s.forwards && s.life == sys.s.life
            && !HasRead(s, sys.ws[w].prog[0].id)
  {
    var id := sys.ws[w].prog[0].id;
    assert Awaited(sys.ws[w].prog) == Some(id);
    EndCancelKeepsInv(sys.s, id);
    var s := EndCancel(sys.s, id);
    forall v | 0 <= v < |sys.ws| && v != w && Awaited(sys.ws[v].prog).Some?
      ensures Closed(s, Awaited(sys.ws[v].prog).value)
    {
      assert Awaited(sys.ws[v].prog).value != id;
    }
    CarefulRest(sys.ws[w].prog);
  }

  lemma CarefulRest(prog: seq<Instr>)
    requires Careful(prog) && prog != []
    ensures Careful(prog[1..])
  {
    forall k | 0 < k < |prog[1..]|
      ensures prog[1..][k] == prog[k + 1] && prog[1..][k - 1] == prog[k]
    {
    }
  }

  lemma StillAlone(sys: System, w: nat)
    requires SysInv(sys) && w < |sys.ws| && sys.ws[w].prog != []
    ensures Alone(sys.ws, w, sys.ws[w].who)
  {
    forall v | 0 <= v < |sys.ws| && v != w && sys.ws[v].who == sys.ws[w].who && OneAtATime(sys.ws[w].who)
      ensures sys.ws[v].prog == []
    {
      if sys.ws[v].prog != [] {
        assert false;
      }
    }
  }

  /** What a worker makes of the session it wakes up in. */
  function Woken(sys: System, w: nat, env: nat -> Env): Progress
    requires Awaiting(sys, w)
  {
    Run(EndCancel(sys.s, sys.ws[w].prog[0].id), sys.ws[w].prog[1..], env)
  }

  lemma WokenResetter(sys: System, w: nat, env: nat -> Env)
    requires SysInv(sys) && Awaiting(sys, w) && sys.ws[w].who.Resetter? && sys.s.life.present
    ensures Told(sys, w, Resetter, Woken(sys, w, env)) && Woken(sys, w, env).refused.None?
  {
    ResumeStart(sys, w);
    assert WorkerLife(sys.ws[w], sys.s.life, sys.s.forwards == []);
    var s := EndCancel(sys.s, sys.ws[w].prog[0].id);
    RunReset(s, sys.ws[w].prog[1..], env);
    RunUnrefused(s, sys.ws[w].prog[1..], env);
  }

  lemma WokenTimer(sys: System, w: nat, env: nat -> Env)
    requires SysInv(sys) && Awaiting(sys, w) && sys.ws[w].who.Timer? && sys.s.life.present
    ensures Told(sys, w, Timer, Woken(sys, w, env)) && Woken(sys, w, env).refused.None?
  {
    ResumeStart(sys, w);
    assert WorkerLife(sys.ws[w], sys.s.life, sys.s.forwards == []);
    assert sys.ws[w].prog[1..] == [Dismiss(ALL), Dispose];
    RunTimer(EndCancel(sys.s, sys.ws[w].prog[0].id), env);
  }

  lemma WokenCloser(sys: System, w: nat, env: nat -> Env)
    requires SysInv(sys) && Awaiting(sys, w) && sys.ws[w].who.Closer? && sys.s.life.present
    ensures Told(sys, w, Closer, Woken(sys, w, env)) && Woken(sys, w, env).refused.None?
  {
    ResumeStart(sys, w);
    assert WorkerLife(sys.ws[w], sys.s.life, sys.s.forwards == []);
    assert sys.ws[w].prog[1..] == CloseProgram();
    assert Disposing(sys.ws[w]);
    RunClose(EndCancel(sys.s, sys.ws[w].prog[0].id), env);
  }

  lemma CleanerTold(sys: System, w: nat, s: Session, rest: seq<Instr>, env: nat -> Env)
    requires SysInv(sys) && w < |sys.ws| && sys.ws[w].who.Cleaner? && sys.s.life.present && sys.s.life.deleted
    requires CleanShape(rest) && s.life == sys.s.life
    ensures Told(sys, w, Cleaner, Run(s, rest, env))
  {
    RunClean(s, rest, env);
  }

  lemma WokenCleaner(sys: System, w: nat, env: nat -> Env)
    requires SysInv(sys) && Awaiting(sys, w) && sys.ws[w].who.Cleaner? && sys.s.life.present
    ensures Told(sys, w, Cleaner, Woken(sys, w, env))
    ensures sys.s.forwards == [] ==> Woken(sys, w, env).refused.None?
  {
    ResumeStart(sys, w);
    assert WorkerLife(sys.ws[w], sys.s.life, sys.s.forwards == []);
    var s := EndCancel(sys.s, sys.ws[w].prog[0].id);
    CleanerTold(sys, w, s, sys.ws[w].prog[1..], env);
    if s.forwards == [] {
      RunUnrefused(s, sys.ws[w].prog[1..], env);
    }
  }

  lemma DeleterRun(s: Session, prog: seq<Instr>, env: nat -> Env)
    requires Sound(s) && prog != [] && Shape(Deleter, prog) && !HasRead(s, prog[0].id)
    ensures var p := Run(s, prog[1..], env); Shape(Deleter, p.prog) && p.s.life == s.life && p.refused.None?
  {
    if |prog| == 4 {
      RunDelete(s, prog[3].id, env);
    } else {
      assert prog[1..] == [Detach(prog[0].id)];
      RunDetach(s, prog[0].id, env);
    }
  }

  lemma RequesterRun(s: Session, prog: seq<Instr>, env: nat -> Env)
    requires Sound(s) && prog != [] && Shape(Requester, prog)
    ensures var p := Run(s, prog[1..], env); Shape(Requester, p.prog) && p.s.life == s.life
  {
    if |prog| == 4 {
      var m, id, spec := prog[1].m, prog[3].id, prog[3].spec;
      var rest := [Cancel(id), NewRead(id, spec)];
      assert prog[1..] == [Dismiss(m)] + rest;
      RunDismiss(s, m, rest, env);
      RunReread(Drain(s, m, env).s, id, spec, env);
    } else {
      assert prog[1..] == [NewRead(prog[1].id, prog[1].spec)];
      RunNewRead(s, prog[1].id, prog[1].spec, env);
    }
  }

  lemma OtherRun(s: Session, who: Who, prog: seq<Instr>, env: nat -> Env)
    requires Sound(s) && prog != [] && (who.Sweeper? || who.Releaser?) && Shape(who, prog)
    ensures var p := Run(s, prog[1..], env); Shape(who, p.prog) && p.s.life == s.life && p.refused.None?
  {
    if |prog| == 2 {
      assert prog[1..] == [prog[1]];
      RunSweep(s, prog[1], env);
    } else {
      assert prog[1..] == [];
    }
  }

  lemma WokenQuiet(sys: System, w: nat, env: nat -> Env)
    requires SysInv(sys) && Awaiting(sys, w)
    requires !OneAtATime(sys.ws[w].who) && !sys.ws[w].who.Cleaner?
    ensures Told(sys, w, sys.ws[w].who, Woken(sys, w, env))
    ensures !sys.ws[w].who.Requester? ==> Woken(sys, w, env).refused.None?
  {
    ResumeStart(sys, w);
    var who, prog := sys.ws[w].who, sys.ws[w].prog;
    var s := EndCancel(sys.s, prog[0].id);
    if who.Deleter? {
      DeleterRun(s, prog, env);
    } else if who.Requester? {
      RequesterRun(s, prog, env);
    } else {
      OtherRun(s, who, prog, env);
    }
    QuietTold(sys, w, who, Woken(sys, w, env));
  }

  lemma WokenTold(sys: System, w: nat, env: nat -> Env)
    requires SysInv(sys) && Awaiting(sys, w) && sys.s.life.present
    ensures Told(sys, w, sys.ws[w].who, Woken(sys, w, env))
    ensures Woken(sys, w, env).refused.Some? ==>
              sys.ws[w].who.Requester? || (sys.ws[w].who.Cleaner? && sys.s.forwards != [])
  {
    match sys.ws[w].who {
      case Resetter => WokenResetter(sys, w, env);
      case Timer => WokenTimer(sys, w, env);
      case Closer => WokenCloser(sys, w, env);
      case Cleaner => WokenCleaner(sys, w, env);
      case _ => WokenQuiet(sys, w, env);
    }
  }

  lemma WokenInv(sys: System, w: nat, env: nat -> Env)
    requires SysInv(sys) && Awaiting(sys, w) && sys.s.life.present
    ensures var p := Woken(sys, w, env);
            && SysInv(System(p.s, sys.ws[w := Worker(sys.ws[w].who, p.prog)]))
            && Moves(sys.ws[w].who, sys.s.life, p.s.life)
            && (p.refused.Some? ==> sys.ws[w].who.Requester? || (sys.ws[w].who.Cleaner? && sys.s.forwards != []))
  {
    ResumeStart(sys, w);
    StillAlone(sys, w);
    WokenTold(sys, w, env);
    var s := EndCancel(sys.s, sys.ws[w].prog[0].id);
    RunFrame(s, sys.ws[w].prog[1..], env);
    PutInv(sys, w, s, sys.ws[w].who, Woken(sys, w, env));
  }

  /** A worker that finds the session gone gives up. */
  lemma AbandonInv(sys: System, w: nat)
    requires SysInv(sys) && w < |sys.ws| && !sys.s.life.present && sys.ws[w].prog != []
    ensures SysInv(System(sys.s, sys.ws[w := Worker(sys.ws[w].who, [])]))
  {
    StillAlone(sys, w);
    PutInv(sys, w, sys.s, sys.ws[w].who, Progress(sys.s, [], None));
  }

  /** What a closer makes of the session when it has the lock again: it goes on to close it,
      or, once the cleaner is done, takes the record away. */
  function Reentered(sys: System, w: nat, env: nat -> Env): Progress
    requires w < |sys.ws| && sys.ws[w].prog != []
  {
    Run(if sys.ws[w].prog[0].AwaitCleanup? then CloseRecord(sys.s) else sys.s, sys.ws[w].prog[1..], env)
  }

  /** Only a closer waits for anything but a cancellation. */
  lemma OnlyClosersLeave(who: Who, prog: seq<Instr>)
    requires Shape(who, prog) && prog != [] && !prog[0].Await?
    ensures who.Closer?
    ensures prog[0].Leave? ==> prog[1..] == [TryClose, AwaitCleanup]
    ensures !prog[0].Leave? ==> prog == [AwaitCleanup]
  {
    assert CloseProgram()[1..][0] == Leave && CloseProgram()[1..][1..] == [TryClose, AwaitCleanup];
    assert CloseProgram()[3..] == [AwaitCleanup];
  }

  lemma ReenteredTold(sys: System, w: nat, env: nat -> Env)
    requires SysInv(sys) && w < |sys.ws| && sys.ws[w].prog != [] && !sys.ws[w].prog[0].Await? && sys.s.life.present
    ensures var p := Reentered(sys, w, env);
            && sys.ws[w].who.Closer? && Told(sys, w, Closer, p) && p.refused.None?
            && p.s == sys.s.(life := p.s.life) && Careful(p.prog) && Awaited(p.prog).None?
  {
    assert WorkerLife(sys.ws[w], sys.s.life, sys.s.forwards == []);
    OnlyClosersLeave(sys.ws[w].who, sys.ws[w].prog);
    if sys.ws[w].prog[0].Leave? {
      RunTryClose(sys.s, env);
    } else {
      assert sys.ws[w].prog[1..] == [];
    }
  }

  lemma ReenteredInv(sys: System, w: nat, env: nat -> Env)
    requires SysInv(sys) && w < |sys.ws| && sys.ws[w].prog != [] && !sys.ws[w].prog[0].Await? && sys.s.life.present
    ensures var p := Reentered(sys, w, env);
            && sys.ws[w].who.Closer? && SysInv(System(p.s, sys.ws[w := Worker(Closer, p.prog)]))
            && p.refused.None? && Moves(Closer, sys.s.life, p.s.life)
  {
    StillAlone(sys, w);
    ReenteredTold(sys, w, env);
    var p := Reentered(sys, w, env);
    LifeFrame(sys.s, p.s.life);
    PutInv(sys, w, sys.s, Closer, p);
  }
}
