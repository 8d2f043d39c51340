/** The end of a session: by the time its record is gone every reader has been detached, and so
    every loan that was ever made on it has been given back. */
module SessionEnd {
  import opened SessionState
  import opened Loans
  import Dismissal
  import opened Workers
  import opened WorkerFrames
  import opened WorkerSafety
  import opened WorkerRuns
  import opened WorkerTheorems

  /** The readers a program is still to detach. */
  function ToDetach(prog: seq<Instr>): set<ReaderId> {
    set k | 0 <= k < |prog| && prog[k].Detach? :: prog[k].id
  }

  /** A cleaner at work is to detach every reader there is; once one is through, or the record
      gone, there is none. */
  ghost predicate Covered(sys: System) {
    && (forall w :: 0 <= w < |sys.ws| && sys.ws[w].who.Cleaner? && sys.ws[w].prog != [] ==>
          sys.s.readers.Keys <= ToDetach(sys.ws[w].prog))
    && (sys.s.life.cleaned || !sys.s.life.present ==> sys.s.readers.Keys == {} && sys.s.life.deleted)
  }

  lemma PerformKeys(s: Session, i: Instr, env: nat -> Env)
    requires !Blocking(i)
    ensures var a := Perform(s, i, env);
            && (a.Next? || a.Wait? ==> a.s.readers.Keys <= s.readers.Keys)
            && (a.Next? && i.Detach? ==> i.id !in a.s.readers.Keys)
  {
    if i.Dismiss? {
      Dismissal.DrainKeepsCounts(s, i.m, env);
    }
  }

  lemma {:induction false} RunKeys(s: Session, prog: seq<Instr>, env: nat -> Env)
    ensures Run(s, prog, env).s.readers.Keys <= s.readers.Keys
    decreases |prog|
  {
    if prog != [] && !Blocking(prog[0]) {
      PerformKeys(s, prog[0], env);
      var a := Perform(s, prog[0], env);
      if a.Next? {
        RunKeys(a.s, prog[1..], env);
      }
    }
  }

  lemma ToDetachRest(prog: seq<Instr>)
    requires prog != []
    ensures ToDetach(prog) <= ToDetach(prog[1..]) + (if prog[0].Detach? then {prog[0].id} else {})
  {
    forall k | 0 < k < |prog| && prog[k].Detach?
      ensures prog[k].id in ToDetach(prog[1..])
    {
      assert prog[1..][k - 1] == prog[k];
    }
  }

  lemma ToDetachAfter(i: Instr, prog: seq<Instr>)
    ensures ToDetach(prog) <= ToDetach([i] + prog)
  {
    forall k | 0 <= k < |prog| && prog[k].Detach?
      ensures prog[k].id in ToDetach([i] + prog)
    {
      assert ([i] + prog)[k + 1] == prog[k];
    }
  }

  /** A cleaner's run detaches what it goes past, and finishes only with nothing left. */
  lemma {:induction false} RunCovered(s: Session, prog: seq<Instr>, env: nat -> Env)
    requires CleanShape(prog) && s.readers.Keys <= ToDetach(prog)
    ensures var p := Run(s, prog, env);
            && (p.prog != [] ==> p.s.readers.Keys <= ToDetach(p.prog))
            && (p.s.life != s.life ==> p.s.readers.Keys == {})
    decreases |prog|
  {
    if prog != [] {
      PerformKeys(s, prog[0], env);
      PerformLife(s, prog[0], env);
      ToDetachRest(prog);
      var a := Perform(s, prog[0], env);
      if a.Next? {
        RunCovered(a.s, prog[1..], env);
        if prog[0].FinishCleanup? {
          assert prog[1..] == [];
        }
      } else if a.Wait? {
        ToDetachAfter(Await(a.id), if a.again then prog else prog[1..]);
      }
    }
  }

  /** A worker's progress keeps the readers covered. */
  lemma PutCovered(sys: System, w: nat, who: Who, p: Progress)
    requires SysInv(sys) && Covered(sys) && w <= |sys.ws| && Moves(who, sys.s.life, p.s.life)
    requires p.s.readers.Keys <= sys.s.readers.Keys
    requires who.Cleaner? ==> (p.prog != [] ==> p.s.readers.Keys <= ToDetach(p.prog))
                              && (p.s.life != sys.s.life ==> p.s.readers.Keys == {})
    requires who.Closer? && sys.s.life.present && !p.s.life.present ==> sys.s.life.cleaned
    ensures Covered(System(p.s, Put(sys.ws, w, Worker(who, p.prog))))
  {
  }

  lemma LaunchCovered(sys: System, s: Session, who: Who, prog: seq<Instr>, env: nat -> Env)
    requires SysInv(sys) && Covered(sys) && !who.Cleaner? && s.readers.Keys == sys.s.readers.Keys
    requires Moves(who, sys.s.life, Run(s, prog, env).s.life)
    requires sys.s.life.present ==> Run(s, prog, env).s.life.present
    ensures Covered(Launch(sys, s, who, prog, env).sys)
  {
    RunKeys(s, prog, env);
    PutCovered(sys, |sys.ws|, who, Run(s, prog, env));
  }

  lemma CleanupCovered(sys: System, order: seq<ReaderId>, env: nat -> Env)
    requires SysInv(sys) && Covered(sys) && sys.s.life.present && sys.s.life.deleted
    requires sys.s.readers.Keys <= (set id | id in order)
    ensures Covered(Launch(sys, sys.s, Cleaner, CleanupProgram(order), env).sys)
  {
    var prog := CleanupProgram(order);
    ResetCareful(order);
    forall id | id in order
      ensures id in ToDetach(prog)
    {
      var k :| 0 <= k < |order| && order[k] == id;
      assert prog[|order| + k] == Detach(id);
    }
    CleanupInv(sys, order, env);
    RunKeys(sys.s, prog, env);
    RunCovered(sys.s, prog, env);
    PutCovered(sys, |sys.ws|, Cleaner, Run(sys.s, prog, env));
  }

  lemma MessageCovered(sys: System, step: Step, env: nat -> Env)
    requires SysInv(sys) && Covered(sys)
    requires step.Attach? || step.Data? || step.Expire? || step.Reply? || step.Release? || step.Sweep?
    ensures Covered(Do(sys, step, env).sys)
  {
    match step {
      case Attach(id) =>
        if Live(sys.s) {
          NoCleaner(sys);
        }
      case Data(id, sn, now, d) =>
        if Do(sys, step, env) != Quiet(sys, sys.s) {
          ProcessFrame(sys.s, id, sn, now, d);
        }
      case Release(i) =>
        if i < |sys.s.queue| {
          ReleaseInv(sys, i, env);
          ReleaseKeys(sys.s, i, env);
          var r := ReleaseMessage(sys.s, i, env);
          LaunchCovered(sys, r.s, Releaser, if r.out.Completed? then [Await(r.out.id)] else [], env);
        }
      case Sweep(id) =>
        if HasRead(sys.s, id) {
          SweepInv(sys, id, env);
          var prog := if ReadOf(sys.s, id).samples != [] then [Dismiss(Match(Some(sys.s.readers[id].stream), id))] else [Cancel(id)];
          LaunchCovered(sys, sys.s, Sweeper, prog, env);
        }
      case _ =>
    }
  }

  lemma NoCleaner(sys: System)
    requires SysInv(sys) && Live(sys.s)
    ensures forall w :: 0 <= w < |sys.ws| && sys.ws[w].who.Cleaner? ==> sys.ws[w].prog == []
  {
    forall w | 0 <= w < |sys.ws| && sys.ws[w].who.Cleaner?
      ensures sys.ws[w].prog == []
    {
      assert WorkerLife(sys.ws[w], sys.s.life, sys.s.forwards == []);
    }
  }

  lemma ReleaseKeys(s: Session, i: nat, env: nat -> Env)
    requires i < |s.queue|
    ensures ReleaseMessage(s, i, env).s.readers.Keys == s.readers.Keys
  {
  }

  lemma LifeCycleCovered(sys: System, step: Step, env: nat -> Env)
    requires SysInv(sys) && Covered(sys)
    requires step.ReadRequest? || step.DeleteReader? || step.DeleteClient? || step.Timeout? || step.Reset? || step.Cleanup?
    ensures Covered(Do(sys, step, env).sys)
  {
    match step {
      case ReadRequest(id, stream, spec) =>
        if Hears(sys.s) && id in sys.s.readers {
          ReadInv(sys, id, stream, spec, env);
          LaunchCovered(sys, Requested(sys.s, id, stream), Requester, ReadProgram(id, stream, spec), env);
        }
      case DeleteReader(id) =>
        if Hears(sys.s) && id in sys.s.readers {
          DeleteInv(sys, id, env);
          LaunchCovered(sys, sys.s, Deleter, DeleteProgram(id), env);
        }
      case DeleteClient =>
        if Hears(sys.s) {
          DeleteClientInv(sys, env);
          LaunchCovered(sys, sys.s.(life := sys.s.life.(disposed := true)), Closer, CloseProgram(), env);
        }
      case Timeout =>
        if Live(sys.s) {
          TimeoutInv(sys, env);
          LaunchCovered(sys, sys.s.(life := sys.s.life.(timedout := true, disposed := true)), Timer,
                        (if sys.s.life.disposed then [] else [Dismiss(ALL)]) + [Dispose], env);
        }
      case Reset(order) =>
        if Live(sys.s) {
          ResetInv(sys, order, env);
          LaunchCovered(sys, sys.s.(life := sys.s.life.(resetting := true)), Resetter, ResetProgram(order), env);
        }
      case Cleanup(order) =>
        if Do(sys, step, env) != Quiet(sys, sys.s) {
          CleanupCovered(sys, order, env);
        }
    }
  }

  lemma WokenCovered(sys: System, w: nat, env: nat -> Env)
    requires SysInv(sys) && Covered(sys) && Awaiting(sys, w) && sys.s.life.present
    ensures Covered(Do(sys, Resume(w), env).sys)
  {
    WokenInv(sys, w, env);
    WokenIs(sys, w, env);
    ResumeStart(sys, w);
    var who, prog := sys.ws[w].who, sys.ws[w].prog;
    var s := EndCancel(sys.s, prog[0].id);
    RunKeys(s, prog[1..], env);
    if who.Cleaner? {
      ToDetachRest(prog);
      RunCovered(s, prog[1..], env);
    }
    if who.Closer? {
      WokenClosing(sys, w, env);
    }
    PutCovered(sys, w, who, Woken(sys, w, env));
  }

  lemma WokenClosing(sys: System, w: nat, env: nat -> Env)
    requires SysInv(sys) && Awaiting(sys, w) && sys.ws[w].who.Closer?
    ensures Woken(sys, w, env).s.life == sys.s.life
  {
    ResumeStart(sys, w);
    assert sys.ws[w].prog[1..] == CloseProgram();
    RunClose(EndCancel(sys.s, sys.ws[w].prog[0].id), env);
  }

  lemma ReenteredCovered(sys: System, w: nat, env: nat -> Env)
    requires SysInv(sys) && Covered(sys) && w < |sys.ws| && sys.s.life.present && sys.ws[w].prog != []
    requires sys.ws[w].prog[0].Leave? || (sys.ws[w].prog[0].AwaitCleanup? && sys.s.life.cleaned)
    ensures Covered(Do(sys, Resume(w), env).sys)
  {
    ReenteredInv(sys, w, env);
    ReenterIs(sys, w, env);
    ReenteredTold(sys, w, env);
    if sys.ws[w].prog[0].Leave? {
      OnlyClosersLeave(sys.ws[w].who, sys.ws[w].prog);
      RunTryClose(sys.s, env);
    }
    PutCovered(sys, w, Closer, Reentered(sys, w, env));
  }

  lemma StepCovered(sys: System, step: Step, env: nat -> Env)
    requires SysInv(sys) && Covered(sys)
    ensures Covered(Do(sys, step, env).sys)
  {
    match step {
      case Resume(w) =>
        if w < |sys.ws| && sys.ws[w].prog != [] && Blocking(sys.ws[w].prog[0]) {
          if !sys.s.life.present {
            assert Covered(System(sys.s, sys.ws[w := Worker(sys.ws[w].who, [])]));
          } else if sys.ws[w].prog[0].Await? {
            WokenCovered(sys, w, env);
          } else if sys.ws[w].prog[0].Leave? || sys.s.life.cleaned {
            ReenteredCovered(sys, w, env);
          }
        }
      case ReadRequest(_, _, _) => LifeCycleCovered(sys, step, env);
      case DeleteReader(_) => LifeCycleCovered(sys, step, env);
      case DeleteClient => LifeCycleCovered(sys, step, env);
      case Timeout => LifeCycleCovered(sys, step, env);
      case Reset(_) => LifeCycleCovered(sys, step, env);
      case Cleanup(_) => LifeCycleCovered(sys, step, env);
      case _ => MessageCovered(sys, step, env);
    }
  }

  lemma {:induction false} ExecCovered(sys: System, steps: seq<Step>, env: nat -> Env)
    requires SysInv(sys) && Covered(sys)
    ensures SysInv(Exec(sys, steps, env)) && Covered(Exec(sys, steps, env))
    decreases |steps|
  {
    if steps != [] {
      StepGood(sys, steps[0], env);
      StepCovered(sys, steps[0], env);
      ExecCovered(Do(sys, steps[0], env).sys, steps[1..], env);
    }
  }

  /** Whatever the interleaving, when a session's record is gone so are its readers and its
      forward requests, and each of the loans made on it has been given back, exactly once. */
  lemma AllReturnedAtTheEnd(steps: seq<Step>, env: nat -> Env)
    requires !Exec(START, steps, env).s.life.present
    ensures var s := Exec(START, steps, env).s;
            && s.readers.Keys == {} && s.forwards == []
            && (forall loan: nat :: loan < s.lent <==> loan in s.returned)
            && (forall i, j :: 0 <= i < j < |s.returned| ==> s.returned[i] != s.returned[j])
  {
    StartInv();
    ExecCovered(START, steps, env);
    var s := Exec(START, steps, env).s;
    assert s.forwards == [] || HasRead(s, s.forwards[0].data.reader);
    assert forall id :: !HasRead(s, id) by {
      assert forall id :: id !in s.readers.Keys;
    }
    assert forall loan: nat :: !Outstanding(s.forwards, loan);
  }
}
