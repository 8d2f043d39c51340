/** Who ends a read before it is complete: only a READ, a DELETE of the reader, a reset or the
    cleaner; no sweep, release, timer or closer does, whatever they dismiss on their way. */
module ReadEnds {
  import opened SessionState
  import opened Workers
  import opened WorkerFrames
  import opened WorkerSafety
  import opened WorkerRuns
  import opened WorkerTheorems

  /** There is a read, and it is with its DDS reader or complete. */
  predicate Lasting(s: Session, k: ReaderId) { HasRead(s, k) && (ReadOf(s, k).open || ReadOf(s, k).complete) }

  lemma ReleaseLasts(s: Session, i: nat, env: nat -> Env, k: ReaderId)
    requires i < |s.queue| && Lasting(s, k)
    ensures Lasting(ReleaseMessage(s, i, env).s, k)
  {
  }

  lemma {:induction false} DrainLasts(s: Session, m: Match, env: nat -> Env, k: ReaderId)
    requires Lasting(s, k)
    ensures Lasting(Drain(s, m, env).s, k)
    decreases |s.queue|
  {
    var g := MatchIndex(s.forwards, m);
    if g < |s.forwards| {
      var i := QueuedIndex(s.queue, s.forwards[g].stream, s.forwards[g].sn);
      if i < |s.queue| {
        ReleaseLasts(s, i, env, k);
        DrainLasts(ReleaseMessage(s, i, env).s, m, env, k);
      }
    }
  }

  /** The program takes no read down. */
  predicate Gentle(prog: seq<Instr>) {
    forall j :: 0 <= j < |prog| ==> prog[j].Dismiss? || prog[j].Dispose? || prog[j].TryClose? || Blocking(prog[j])
  }

  lemma {:induction false} RunLasts(s: Session, prog: seq<Instr>, env: nat -> Env, k: ReaderId)
    requires Gentle(prog) && Lasting(s, k)
    ensures Lasting(Run(s, prog, env).s, k)
    decreases |prog|
  {
    if prog != [] && !Blocking(prog[0]) {
      if prog[0].Dismiss? {
        DrainLasts(s, prog[0].m, env, k);
      }
      var a := Perform(s, prog[0], env);
      if a.Next? {
        assert forall j :: 0 <= j < |prog[1..]| ==> prog[1..][j] == prog[j + 1];
        RunLasts(a.s, prog[1..], env, k);
      }
    }
  }

  predicate MayEnd(who: Who) { who.Requester? || who.Deleter? || who.Resetter? || who.Cleaner? }

  lemma RestGentle(who: Who, prog: seq<Instr>)
    requires Shape(who, prog) && prog != [] && !MayEnd(who)
    ensures Gentle(prog[1..])
  {
    if who.Closer? {
      var all := CloseProgram();
      assert all == [Dismiss(ALL), Leave, TryClose, AwaitCleanup];
      assert prog == all[1..] ==> prog[1..] == [TryClose, AwaitCleanup];
      assert prog == all[3..] ==> prog[1..] == [];
    } else {
      assert forall j :: 0 <= j < |prog[1..]| ==> prog[1..][j] == prog[j + 1];
    }
  }

  /** What a step may not end: an open read that is not complete. */
  predicate Running(s: Session, k: ReaderId) { HasRead(s, k) && ReadOf(s, k).open && !ReadOf(s, k).complete }

  lemma ResumeLasts(sys: System, w: nat, env: nat -> Env, k: ReaderId)
    requires SysInv(sys) && w < |sys.ws| && !MayEnd(sys.ws[w].who) && Running(sys.s, k)
    ensures Lasting(DoResume(sys, w, env).sys.s, k)
  {
    var prog := sys.ws[w].prog;
    if prog != [] && sys.s.life.present {
      RestGentle(sys.ws[w].who, prog);
      if prog[0].Await? {
        assert Awaited(prog) == Some(prog[0].id);
        assert Closed(sys.s, prog[0].id);
        RunLasts(EndCancel(sys.s, prog[0].id), prog[1..], env, k);
      } else {
        RunLasts(sys.s, prog[1..], env, k);
        RunLasts(CloseRecord(sys.s), prog[1..], env, k);
      }
    }
  }

  lemma SweepLasts(sys: System, id: ReaderId, env: nat -> Env, k: ReaderId)
    requires Running(sys.s, k)
    ensures Lasting(Do(sys, Sweep(id), env).sys.s, k)
  {
    if HasRead(sys.s, id) && ReadOf(sys.s, id).complete {
      if ReadOf(sys.s, id).samples != [] {
        RunLasts(sys.s, [Dismiss(Match(Some(sys.s.readers[id].stream), id))], env, k);
      } else {
        assert [Cancel(id)] == [Cancel(id)] + [];
        RunNext(sys.s, Cancel(id), [], env);
      }
    }
  }

  lemma LaunchLasts(sys: System, s: Session, who: Who, prog: seq<Instr>, env: nat -> Env, k: ReaderId)
    requires Gentle(prog) && Lasting(s, k)
    ensures Lasting(Launch(sys, s, who, prog, env).sys.s, k)
  {
    RunLasts(s, prog, env, k);
  }

  lemma QuietLasts(sys: System, step: Step, env: nat -> Env, k: ReaderId)
    requires Running(sys.s, k) && (step.Attach? || step.Data? || step.Expire? || step.Reply?)
    ensures Lasting(Do(sys, step, env).sys.s, k)
  {
    match step {
      case Attach(id) => assert HasRead(sys.s, k) ==> k in sys.s.readers;
      case Data(id, sn, now, d) =>
        if HasRead(sys.s, id) {
          ProcessLasts(sys.s, id, sn, now, d, k);
        }
      case Expire(id, now) =>
      case Reply(stream, sn) =>
    }
  }

  lemma ProcessLasts(s: Session, id: ReaderId, sn: int, now: int, d: Delivery, k: ReaderId)
    requires HasRead(s, id) && Lasting(s, k)
    ensures Lasting(ProcessSample(s, id, sn, now, d).s, k)
  {
  }

  lemma StartLasts(sys: System, step: Step, env: nat -> Env, k: ReaderId)
    requires Running(sys.s, k) && (step.Release? || step.DeleteClient? || step.Timeout?)
    ensures Lasting(Do(sys, step, env).sys.s, k)
  {
    match step {
      case Release(i) =>
        if i < |sys.s.queue| {
          ReleaseLasts(sys.s, i, env, k);
          var r := ReleaseMessage(sys.s, i, env);
          LaunchLasts(sys, r.s, Releaser, if r.out.Completed? then [Await(r.out.id)] else [], env, k);
        }
      case DeleteClient => LaunchLasts(sys, sys.s.(life := sys.s.life.(disposed := true)), Closer, CloseProgram(), env, k);
      case Timeout => LaunchLasts(sys, Struck(sys.s), Timer, (if sys.s.life.disposed then [] else [Dismiss(ALL)]) + [Dispose], env, k);
    }
  }

  lemma StepLasts(sys: System, step: Step, env: nat -> Env, k: ReaderId)
    requires SysInv(sys) && Running(sys.s, k) && (Actor(sys, step).Some? ==> !MayEnd(Actor(sys, step).value))
    ensures Lasting(Do(sys, step, env).sys.s, k)
  {
    if step.Sweep? {
      SweepLasts(sys, step.id, env, k);
    } else if step.Resume? {
      if step.w < |sys.ws| {
        ResumeLasts(sys, step.w, env, k);
      }
    } else if step.Release? || step.DeleteClient? || step.Timeout? {
      StartLasts(sys, step, env, k);
    } else {
      QuietLasts(sys, step, env, k);
    }
  }

  /** In any interleaving: an open read that is not complete is still there, open or complete by
      then, after every step but those of a READ, a DELETE of a reader, a reset or the cleaner. */
  lemma NeverCutShort(steps: seq<Step>, step: Step, env: nat -> Env, k: ReaderId)
    requires var sys := Exec(START, steps, env);
             && HasRead(sys.s, k) && ReadOf(sys.s, k).open && !ReadOf(sys.s, k).complete
             && (Actor(sys, step).Some? ==> !MayEnd(Actor(sys, step).value))
    ensures Lasting(Do(Exec(START, steps, env), step, env).sys.s, k)
  {
    StartInv();
    ExecInv(START, steps, env);
    StepLasts(Exec(START, steps, env), step, env, k);
  }
}
