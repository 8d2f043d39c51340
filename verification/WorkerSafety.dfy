/** What holds in every state the workers can reach, whatever their interleaving. */
module WorkerSafety {
  import opened SessionState
  import opened Loans
  import Dismissal
  import opened Workers
  import opened WorkerFrames

  // ----- the programs of resting workers -----

  predicate ResetShape(prog: seq<Instr>) {
    forall k :: 0 <= k < |prog| ==>
      if k == |prog| - 1 then prog[k].EndReset?
      else prog[k].Cancel? || prog[k].ResetStreams? || prog[k] == Dismiss(ALL)
  }

  predicate CleanShape(prog: seq<Instr>) {
    forall k :: 0 <= k < |prog| ==>
      if k == |prog| - 1 then prog[k].FinishCleanup? else prog[k].Cancel? || prog[k].Detach?
  }

  predicate Shape(who: Who, prog: seq<Instr>) {
    prog != [] ==>
      match who
      case Resetter => prog[0].Await? && |prog| > 1 && ResetShape(prog[1..])
      case Timer => |prog| == 3 && prog[0].Await? && prog[1] == Dismiss(ALL) && prog[2] == Dispose
      case Closer => (prog[0].Await? && prog[1..] == CloseProgram()) || prog == CloseProgram()[1..] || prog == CloseProgram()[3..]
      case Cleaner => prog[0].Await? && |prog| > 1 && CleanShape(prog[1..])
      case Deleter =>
        || (|prog| == 4 && prog[0].Await? && prog[3].Detach? && prog[3].id != EVERY_READER && prog[1..] == DeleteProgram(prog[3].id))
        || (|prog| == 2 && prog[0].Await? && prog[1] == Detach(prog[0].id))
      case Requester =>
        || (|prog| == 4 && prog[0].Await? && prog[1].Dismiss? && prog[3].NewRead? && prog[2] == Cancel(prog[3].id))
        || (|prog| == 2 && prog[0].Await? && prog[1].NewRead? && prog[1].id == prog[0].id)
      case Sweeper => prog[0].Await? && (|prog| == 1 || (|prog| == 2 && prog[1].Dismiss?))
      case Releaser => |prog| == 1 && prog[0].Await?
  }

  /** The worker that is to leave the disposed client without forward requests, while it
      is still at it. */
  predicate Disposing(w: Worker) {
    (w.who.Closer? || w.who.Timer?) && |w.prog| > 1 && w.prog[1] == Dismiss(ALL)
  }

  // ----- the invariant -----

  ghost predicate AwaitInv(sys: System) {
    && (forall w :: 0 <= w < |sys.ws| && Awaited(sys.ws[w].prog).Some? ==> Closed(sys.s, Awaited(sys.ws[w].prog).value))
    && (forall v, w :: 0 <= v < w < |sys.ws| && Awaited(sys.ws[v].prog).Some? ==>
          Awaited(sys.ws[v].prog) != Awaited(sys.ws[w].prog))
  }

  ghost predicate WorkerLife(w: Worker, l: Life, empty: bool) {
    w.prog != [] ==>
      match w.who
      case Timer => l.timedout && !l.deleted && l.disposed
      case Closer => l.disposed && (l.deleted && !l.timedout ==> !Disposing(w))
                     && (w.prog[0].AwaitCleanup? ==> l.deleted && !l.timedout)
      case Resetter => l.resetting && (l.present ==> empty || (|w.prog| > 1 && w.prog[1] == Dismiss(ALL)))
      case Cleaner => l.deleted
      case _ => true
  }

  ghost predicate SessionLife(l: Life, empty: bool, ws: seq<Worker>) {
    && l.closed == (if l.present then 0 else 1)
    && (l.timedout ==> l.disposed) && (l.deleted ==> l.disposed)
    && (l.present && l.disposed && !empty ==> exists w :: 0 <= w < |ws| && Disposing(ws[w]))
  }

  predicate OneAtATime(who: Who) { who.Resetter? || who.Closer? || who.Timer? }

  ghost predicate Exclusive(ws: seq<Worker>) {
    forall v, w :: 0 <= v < w < |ws| && ws[v].prog != [] && ws[w].prog != [] && ws[v].who == ws[w].who ==>
      !OneAtATime(ws[v].who)
  }

  ghost predicate Programs(ws: seq<Worker>) {
    forall w :: 0 <= w < |ws| ==> Careful(ws[w].prog) && Shape(ws[w].who, ws[w].prog)
  }

  ghost predicate Lives(ws: seq<Worker>, l: Life, empty: bool) {
    forall w :: 0 <= w < |ws| ==> WorkerLife(ws[w], l, empty)
  }

  ghost predicate SysInv(sys: System) {
    && Sound(sys.s)
    && Programs(sys.ws)
    && AwaitInv(sys)
    && Lives(sys.ws, sys.s.life, sys.s.forwards == [])
    && SessionLife(sys.s.life, sys.s.forwards == [], sys.ws)
    && Exclusive(sys.ws)
  }

  // ----- runs by shape -----

  /** With no forward request left, or once all are to be dismissed first, nothing is refused,
      and the run ends with none left or still at the dismissal. */
  lemma {:induction false} RunUnrefused(s: Session, prog: seq<Instr>, env: nat -> Env)
    requires Sound(s) && Careful(prog) && Ready(s, prog)
    requires prog != [] ==> !prog[0].Await?
    requires s.forwards == [] || (prog != [] && prog[0] == Dismiss(ALL))
    ensures var p := Run(s, prog, env);
            && p.refused.None?
            && (s.forwards == [] ==> p.s.forwards == [])
            && (p.s.forwards == [] || (|p.prog| > 1 && p.prog[1] == Dismiss(ALL) && p.prog[1..] == prog))
    decreases |prog|
  {
    if prog != [] && !Blocking(prog[0]) {
      PerformFrame(s, prog[0], env);
      PerformReady(s, prog, env);
      if prog[0].Dismiss? {
        Dismissed(s, prog[0].m, env);
      }
      var a := Perform(s, prog[0], env);
      if a.Next? {
        RunUnrefused(a.s, prog[1..], env);
      } else if a.Wait? {
        assert ([Await(a.id)] + prog)[1..] == prog;
      }
    }
  }

  /** The life-cycle flags that a resetter's program may change: none before it ends. */
  lemma {:induction false} RunReset(s: Session, prog: seq<Instr>, env: nat -> Env)
    requires ResetShape(prog)
    ensures var p := Run(s, prog, env);
            && Shape(Resetter, p.prog)
            && (p.s.life == s.life || (p.prog == [] && p.s.life == s.life.(resetting := false)))
    decreases |prog|
  {
    if prog != [] {
      PerformLife(s, prog[0], env);
      if Perform(s, prog[0], env).Next? {
        RunReset(Perform(s, prog[0], env).s, prog[1..], env);
      }
    }
  }

  lemma {:induction false} RunClean(s: Session, prog: seq<Instr>, env: nat -> Env)
    requires CleanShape(prog)
    ensures var p := Run(s, prog, env);
            && Shape(Cleaner, p.prog)
            && (p.s.life == s.life
                || (p.prog == [] && !s.life.timedout && p.s.life == s.life.(cleaned := true))
                || (p.prog == [] && s.life.timedout && s.life.present && p.s.life == CloseRecord(s).life))
    decreases |prog|
  {
    if prog != [] {
      PerformLife(s, prog[0], env);
      if Perform(s, prog[0], env).Next? {
        RunClean(Perform(s, prog[0], env).s, prog[1..], env);
      }
    }
  }

  /** Only the life-cycle instructions touch the life-cycle flags. */
  lemma PerformLife(s: Session, i: Instr, env: nat -> Env)
    requires !Blocking(i)
    requires i.Dismiss? || i.Cancel? || i.Detach? || i.NewRead? || i.ResetStreams? || i.EndReset? || i.FinishCleanup?
    ensures var a := Perform(s, i, env);
            && (a.Wait? ==> a.s.life == s.life)
            && (a.Next? && i.EndReset? ==> a.s.life == s.life.(resetting := false))
            && (a.Next? && i.FinishCleanup? ==>
                  if s.life.timedout then s.life.present && a.s.life == CloseRecord(s).life
                  else a.s.life == s.life.(cleaned := true))
            && (a.Next? && !i.EndReset? && !i.FinishCleanup? ==> a.s.life == s.life)
  {
    if i.Dismiss? {
      Dismissal.DrainKeepsCounts(s, i.m, env);
    }
  }

  lemma RunNext(s: Session, i: Instr, rest: seq<Instr>, env: nat -> Env)
    requires !Blocking(i)
    ensures var a := Perform(s, i, env);
            var p := Run(s, [i] + rest, env);
            && (a.Next? ==> p == Run(a.s, rest, env))
            && (a.GiveUp? ==> p == Progress(s, [], a.refused))
            && (a.Wait? ==> p == Progress(a.s, [Await(a.id)] + (if a.again then [i] + rest else rest), None))
  {
    assert ([i] + rest)[1..] == rest;
  }

  /** A program that begins with a dismissal: it is done again after every wait. */
  lemma RunDismiss(s: Session, m: Match, rest: seq<Instr>, env: nat -> Env)
    requires Sound(s)
    ensures var d := Drain(s, m, env);
            && Sound(d.s) && d.s.life == s.life && !d.out.Stuck?
            && (m == ALL && d.out.Done? ==> d.s.forwards == [])
            && Run(s, [Dismiss(m)] + rest, env)
               == if d.out.Blocked? then Progress(d.s, [Await(d.out.id)] + ([Dismiss(m)] + rest), None) else Run(d.s, rest, env)
  {
    DrainFrame(s, m, env);
    Dismissed(s, m, env);
    Dismissal.DrainKeepsCounts(s, m, env);
    RunNext(s, Dismiss(m), rest, env);
  }

  lemma RunDispose(s: Session, env: nat -> Env)
    ensures Run(s, [Dispose], env) == Progress(s.(life := s.life.(deleted := true)), [], None)
  {
    assert [Dispose][1..] == [];
  }

  lemma TimerWaits(id: ReaderId)
    ensures var prog := [Await(id)] + ([Dismiss(ALL)] + [Dispose]);
            prog != [] && Shape(Timer, prog) && |prog| > 1 && prog[1] == Dismiss(ALL)
  {
  }

  lemma RunTimer(s: Session, env: nat -> Env)
    requires Sound(s)
    ensures var p := Run(s, [Dismiss(ALL), Dispose], env);
            && p.refused.None? && Shape(Timer, p.prog)
            && (p.prog != [] ==> p.s.life == s.life && |p.prog| > 1 && p.prog[1] == Dismiss(ALL))
            && (p.prog == [] ==> p.s.life == s.life.(deleted := true) && p.s.forwards == [])
  {
    RunDismiss(s, ALL, [Dispose], env);
    assert [Dismiss(ALL), Dispose] == [Dismiss(ALL)] + [Dispose];
    var d := Drain(s, ALL, env);
    if d.out.Blocked? {
      TimerWaits(d.out.id);
    } else {
      RunDispose(d.s, env);
    }
  }

  lemma RunClose(s: Session, env: nat -> Env)
    requires Sound(s)
    ensures var p := Run(s, CloseProgram(), env);
            && p.refused.None? && Shape(Closer, p.prog) && p.prog != [] && p.s.life == s.life && !p.prog[0].AwaitCleanup?
            && (p.s.forwards == [] || (|p.prog| > 1 && p.prog[1] == Dismiss(ALL)))
            && (|p.prog| > 1 && p.prog[1] == Dismiss(ALL) ==> p.prog[0].Await?)
  {
    var rest := [Leave, TryClose, AwaitCleanup];
    assert CloseProgram() == [Dismiss(ALL)] + rest;
    assert CloseProgram()[1..] == rest;
    RunDismiss(s, ALL, rest, env);
    var d := Drain(s, ALL, env);
    if d.out.Blocked? {
      assert ([Await(d.out.id)] + CloseProgram())[1..] == CloseProgram();
    }
  }

  lemma RunTryClose(s: Session, env: nat -> Env)
    ensures var p := Run(s, [TryClose, AwaitCleanup], env);
            && p.refused.None?
            && (p == Progress(s, [], None)
                || (Live(s) && p.s == s.(life := s.life.(deleted := true)) && p.prog == [AwaitCleanup]))
  {
    assert [TryClose, AwaitCleanup][1..] == [AwaitCleanup];
  }

  /** Once every forward request of a reader is dismissed, nothing of it is pending. */
  lemma NonePending(s: Session, stream: Option<StreamId>, id: ReaderId)
    requires Sound(s) && id != EVERY_READER && MatchIndex(s.forwards, Match(stream, id)) == |s.forwards|
    requires HasRead(s, id) && ReadOf(s, id).samples != []
    ensures stream.Some? && exists k :: 0 <= k < |s.forwards| && s.forwards[k].data.reader == id && s.forwards[k].stream != stream.value
  {
    var i := MineMember(s.forwards, id, 0);
    assert !Matches(s.forwards[i], Match(stream, id));
  }

  lemma RunDetach(s: Session, id: ReaderId, env: nat -> Env)
    requires Sound(s)
    ensures var p := Run(s, [Detach(id)], env);
            && p.s.life == s.life && Shape(Deleter, p.prog) && (p.refused.Some? ==> HasRead(s, id) && ReadOf(s, id).samples != [])
  {
    assert [Detach(id)][1..] == [];
  }

  lemma RunTakeOff(s: Session, id: ReaderId, env: nat -> Env)
    requires Sound(s) && id != EVERY_READER && MatchIndex(s.forwards, Match(None, id)) == |s.forwards|
    ensures var p := Run(s, [Cancel(id), Detach(id)], env);
            p.refused.None? && Shape(Deleter, p.prog) && p.s.life == s.life
  {
    if HasRead(s, id) && ReadOf(s, id).samples != [] {
      NonePending(s, None, id);
    }
    assert [Cancel(id), Detach(id)][1..] == [Detach(id)];
    if !HasRead(s, id) {
      RunDetach(s, id, env);
    }
  }

  lemma RunDelete(s: Session, id: ReaderId, env: nat -> Env)
    requires Sound(s) && id != EVERY_READER
    ensures var p := Run(s, DeleteProgram(id), env);
            p.refused.None? && Shape(Deleter, p.prog) && p.s.life == s.life
  {
    var m := Match(None, id);
    assert DeleteProgram(id) == [Dismiss(m)] + [Cancel(id), Detach(id)];
    RunDismiss(s, m, [Cancel(id), Detach(id)], env);
    var d := Drain(s, m, env);
    if d.out.Blocked? {
      assert ([Await(d.out.id)] + DeleteProgram(id))[1..] == DeleteProgram(id);
    } else {
      RunTakeOff(d.s, id, env);
    }
  }

  lemma RunNewRead(s: Session, id: ReaderId, spec: ReadSpec, env: nat -> Env)
    ensures var p := Run(s, [NewRead(id, spec)], env); p.prog == [] && p.refused.None? && p.s.life == s.life
  {
    assert [NewRead(id, spec)][1..] == [];
  }

  lemma RunReread(s: Session, id: ReaderId, spec: ReadSpec, env: nat -> Env)
    ensures var p := Run(s, [Cancel(id), NewRead(id, spec)], env);
            && Shape(Requester, p.prog) && p.s.life == s.life
            && (p.refused.Some? <==> HasRead(s, id) && ReadOf(s, id).samples != [])
  {
    assert [Cancel(id), NewRead(id, spec)][1..] == [NewRead(id, spec)];
    if !HasRead(s, id) {
      RunNewRead(s, id, spec, env);
    }
  }

  lemma RunRead(s: Session, id: ReaderId, stream: StreamId, spec: ReadSpec, env: nat -> Env)
    requires Sound(s)
    ensures var p := Run(s, ReadProgram(id, stream, spec), env);
            && Shape(Requester, p.prog) && p.s.life == s.life
            && ReadRefused(s, id, stream, env, p.refused)
  {
    var rest := [Cancel(id), NewRead(id, spec)];
    if Reliable(stream) {
      var m := Match(Some(stream), id);
      RunDismiss(s, m, rest, env);
      assert ReadProgram(id, stream, spec) == [Dismiss(m)] + rest;
      RunReread(Drain(s, m, env).s, id, spec, env);
    } else {
      assert ReadProgram(id, stream, spec) == rest;
      RunReread(s, id, spec, env);
    }
  }

  /** A READ is refused exactly when its reader still has samples pending once the forward
      requests on the requested stream are dismissed. */
  predicate ReadRefused(s: Session, id: ReaderId, stream: StreamId, env: nat -> Env, refused: Option<ReaderId>) {
    var d := if Reliable(stream) then Drain(s, Match(Some(stream), id), env) else Drained(s, Done);
    refused.Some? <==> d.out.Done? && HasRead(d.s, id) && ReadOf(d.s, id).samples != []
  }

  lemma RunSweep(s: Session, i: Instr, env: nat -> Env)
    requires i.Dismiss? || (i.Cancel? && (HasRead(s, i.id) ==> ReadOf(s, i.id).samples == []))
    ensures var p := Run(s, [i], env); p.refused.None? && Shape(Sweeper, p.prog) && p.s.life == s.life
  {
    PerformLife(s, i, env);
    assert [i][1..] == [];
  }
}
