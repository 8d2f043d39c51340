/** The timer strikes a session: from which states the cleaner that follows can still be refused
    the cancellation of a read. */
module TimerStrikes {
  import opened SessionState
  import opened Loans
  import opened Workers
  import opened WorkerFrames
  import opened WorkerSafety
  import opened WorkerRuns
  import opened WorkerTheorems
  import SessionClosing

  ghost predicate CleanerHeld(sys: System, step: Step, env: nat -> Env) {
    var r := Do(sys, step, env).refused;
    r.Some? && r.value.who.Cleaner?
  }

  /** Some way on from here ends with a cleaner that is refused. */
  ghost predicate CleanerMayBeHeld(sys: System) {
    exists steps, step, env :: CleanerHeld(Exec(sys, steps, env), step, env)
  }

  // ----- no forward request left -----

  lemma {:induction false} RunKeepsEmpty(s: Session, prog: seq<Instr>, env: nat -> Env)
    requires s.forwards == []
    ensures Run(s, prog, env).s.forwards == []
    decreases |prog|
  {
    if prog != [] && !Blocking(prog[0]) {
      var a := Perform(s, prog[0], env);
      assert prog[0].Dismiss? ==> a == Next(s);
      if a.Next? {
        RunKeepsEmpty(a.s, prog[1..], env);
      }
    }
  }

  /** The client is disposed, and all its samples have been given back. */
  predicate Emptied(s: Session) { s.life.disposed && s.forwards == [] }

  lemma LaunchKeepsEmpty(sys: System, s: Session, who: Who, prog: seq<Instr>, env: nat -> Env)
    requires s.forwards == []
    ensures Launch(sys, s, who, prog, env).sys.s.forwards == []
  {
    RunKeepsEmpty(s, prog, env);
  }

  lemma ResumeKeepsEmpty(sys: System, w: nat, env: nat -> Env)
    requires w < |sys.ws| && sys.s.forwards == []
    ensures DoResume(sys, w, env).sys.s.forwards == []
  {
    var prog := sys.ws[w].prog;
    if prog != [] {
      RunKeepsEmpty(sys.s, prog[1..], env);
      RunKeepsEmpty(CloseRecord(sys.s), prog[1..], env);
      if prog[0].Await? {
        RunKeepsEmpty(EndCancel(sys.s, prog[0].id), prog[1..], env);
      }
    }
  }

  lemma StepKeepsEmpty(sys: System, step: Step, env: nat -> Env)
    requires sys.s.forwards == [] && (step.Data? ==> sys.s.life.disposed)
    ensures Do(sys, step, env).sys.s.forwards == []
  {
    match step {
      case Data(id, sn, now, d) =>
        if Do(sys, step, env) != Quiet(sys, sys.s) {
          ProcessFrame(sys.s, id, sn, now, d);
        }
      case Release(i) =>
        if i < |sys.s.queue| {
          var r := ReleaseMessage(sys.s, i, env);
          assert r.s.forwards == [];
          forall prog {
            LaunchKeepsEmpty(sys, r.s, Releaser, prog, env);
          }
        }
      case ReadRequest(id, stream, spec) =>
        if id in sys.s.readers {
          LaunchKeepsEmpty(sys, Requested(sys.s, id, stream), Requester, ReadProgram(id, stream, spec), env);
        }
      case DeleteReader(id) => LaunchKeepsEmpty(sys, sys.s, Deleter, DeleteProgram(id), env);
      case DeleteClient => LaunchKeepsEmpty(sys, sys.s.(life := sys.s.life.(disposed := true)), Closer, CloseProgram(), env);
      case Timeout =>
        LaunchKeepsEmpty(sys, Struck(sys.s), Timer, (if sys.s.life.disposed then [] else [Dismiss(ALL)]) + [Dispose], env);
      case Reset(order) => LaunchKeepsEmpty(sys, sys.s.(life := sys.s.life.(resetting := true)), Resetter, ResetProgram(order), env);
      case Cleanup(order) => LaunchKeepsEmpty(sys, sys.s, Cleaner, CleanupProgram(order), env);
      case Sweep(id) =>
        if HasRead(sys.s, id) {
          LaunchKeepsEmpty(sys, sys.s, Sweeper, [Dismiss(Match(Some(sys.s.readers[id].stream), id))], env);
          LaunchKeepsEmpty(sys, sys.s, Sweeper, [Cancel(id)], env);
        }
      case Resume(w) =>
        if w < |sys.ws| {
          ResumeKeepsEmpty(sys, w, env);
        }
      case _ =>
    }
  }

  /** A cleaner is refused only while forward requests are left. */
  lemma HeldPending(sys: System, step: Step, env: nat -> Env)
    requires SysInv(sys) && sys.s.forwards == []
    ensures !CleanerHeld(sys, step, env)
  {
    match step {
      case Cleanup(order) => CleanupUnrefused(sys, order, env);
      case Resume(w) =>
        if Awaiting(sys, w) && sys.s.life.present {
          WokenInv(sys, w, env);
          WokenIs(sys, w, env);
        } else if w < |sys.ws| && sys.ws[w].prog != [] && !sys.ws[w].prog[0].Await? && sys.s.life.present {
          ReenteredTold(sys, w, env);
        }
      case _ =>
    }
  }

  // ----- no closer at work -----

  ghost predicate NoClosers(sys: System) {
    forall w :: 0 <= w < |sys.ws| && sys.ws[w].who.Closer? ==> sys.ws[w].prog == []
  }

  lemma StepKeepsNoClosers(sys: System, step: Step, env: nat -> Env)
    requires sys.s.life.disposed && NoClosers(sys)
    ensures NoClosers(Do(sys, step, env).sys)
  {
  }

  lemma StepKeepsDisposed(sys: System, step: Step, env: nat -> Env)
    requires SysInv(sys) && sys.s.life.disposed
    ensures SysInv(Do(sys, step, env).sys) && Do(sys, step, env).sys.s.life.disposed
  {
    StepGood(sys, step, env);
  }

  /** The client is disposed and either all is given back or no closer is at work; from then on
      no cleaner is refused. */
  ghost predicate Harmless(sys: System) {
    SysInv(sys) && sys.s.life.disposed && (sys.s.forwards == [] || NoClosers(sys))
  }

  lemma HarmlessStep(sys: System, step: Step, env: nat -> Env)
    requires Harmless(sys)
    ensures Harmless(Do(sys, step, env).sys) && !CleanerHeld(sys, step, env)
  {
    StepKeepsDisposed(sys, step, env);
    if sys.s.forwards == [] {
      StepKeepsEmpty(sys, step, env);
      HeldPending(sys, step, env);
    } else {
      StepKeepsNoClosers(sys, step, env);
      StepGood(sys, step, env);
    }
  }

  lemma {:induction false} HarmlessRun(sys: System, steps: seq<Step>, env: nat -> Env)
    requires Harmless(sys)
    ensures Harmless(Exec(sys, steps, env))
    decreases |steps|
  {
    if steps != [] {
      HarmlessStep(sys, steps[0], env);
      HarmlessRun(Do(sys, steps[0], env).sys, steps[1..], env);
    }
  }

  lemma HarmlessForGood(sys: System)
    requires Harmless(sys)
    ensures !CleanerMayBeHeld(sys)
  {
    forall steps, step, env
      ensures !CleanerHeld(Exec(sys, steps, env), step, env)
    {
      HarmlessRun(sys, steps, env);
      HarmlessStep(Exec(sys, steps, env), step, env);
    }
  }

  // ----- the timer -----

  lemma StruckHarmless(sys: System, env: nat -> Env)
    requires SysInv(sys) && Live(sys.s) && (!sys.s.life.disposed || sys.s.forwards == [])
    ensures Harmless(Do(sys, Timeout, env).sys)
  {
    StepGood(sys, Timeout, env);
    RunKeepsTimedout(Struck(sys.s), (if sys.s.life.disposed then [] else [Dismiss(ALL)]) + [Dispose], env);
    var t := Do(sys, Timeout, env).sys;
    assert t.s.life.timedout;
    if sys.s.forwards == [] {
      StepKeepsEmpty(sys, Timeout, env);
    } else {
      forall w | 0 <= w < |sys.ws| && sys.ws[w].who.Closer?
        ensures sys.ws[w].prog == []
      {
        assert WorkerLife(sys.ws[w], sys.s.life, sys.s.forwards == []);
      }
    }
  }

  /** Some order of the elements of a set that begins with a given one. */
  lemma Ordered(first: ReaderId, ids: set<ReaderId>) returns (order: seq<ReaderId>)
    requires first in ids
    ensures order != [] && order[0] == first && forall id :: id in order <==> id in ids
    decreases ids
  {
    if ids == {first} {
      order := [first];
      assert forall id :: id in order <==> id == first;
    } else {
      var other :| other in ids && other != first;
      var rest := Ordered(first, ids - {other});
      order := rest + [other];
      assert forall id :: id in order <==> id in rest || id == other;
    }
  }

  /** The timer sets `deleted` at once when the client is disposed already. */
  lemma LateStrike(sys: System, env: nat -> Env)
    requires Live(sys.s) && sys.s.life.disposed
    ensures Do(sys, Timeout, env).sys.s == sys.s.(life := sys.s.life.(timedout := true, deleted := true))
  {
    assert [] + [Dispose] == [Dispose];
    RunDispose(Struck(sys.s), env);
  }

  lemma StruckHeld(sys: System, env: nat -> Env)
    requires SysInv(sys) && Live(sys.s) && sys.s.life.disposed && sys.s.forwards != []
    ensures CleanerMayBeHeld(Do(sys, Timeout, env).sys)
  {
    LateStrike(sys, env);
    var t := Do(sys, Timeout, env).sys;
    var id := sys.s.forwards[0].data.reader;
    PendingIff(sys.s, id);
    var order := Ordered(id, t.s.readers.Keys);
    SessionClosing.CleanupRefusedExactly(t, order, env);
    assert Exec(t, [], env) == t;
    assert CleanerHeld(Exec(t, [], env), Cleanup(order), env);
  }

  /** At the moment the timer strikes a session that some run has led to: a cleaner can be
      refused later exactly when the client counts as disposed already and some of its samples
      have still to be given back. */
  lemma TimerHoldsExactly(steps: seq<Step>, env: nat -> Env)
    requires Live(Exec(START, steps, env).s)
    ensures var sys := Exec(START, steps, env);
            CleanerMayBeHeld(Do(sys, Timeout, env).sys) <==> sys.s.life.disposed && sys.s.forwards != []
  {
    StartInv();
    ExecInv(START, steps, env);
    var sys := Exec(START, steps, env);
    if sys.s.life.disposed && sys.s.forwards != [] {
      StruckHeld(sys, env);
    } else {
      StruckHarmless(sys, env);
      HarmlessForGood(Do(sys, Timeout, env).sys);
    }
  }

  // ----- whole runs -----

  /** The timer strikes while the client counts as disposed with samples still out. */
  predicate LateStrikes(sys: System, step: Step) {
    step.Timeout? && Live(sys.s) && sys.s.life.disposed && sys.s.forwards != []
  }

  predicate NoLateStrike(sys: System, steps: seq<Step>, env: nat -> Env)
    decreases |steps|
  {
    steps == [] || (!LateStrikes(sys, steps[0]) && NoLateStrike(Do(sys, steps[0], env).sys, steps[1..], env))
  }

  lemma {:induction false} NoLateStrikeSafe(sys: System, steps: seq<Step>, step: Step, env: nat -> Env)
    requires SysInv(sys) && !sys.s.life.timedout && NoLateStrike(sys, steps, env)
    ensures !CleanerHeld(Exec(sys, steps, env), step, env)
    decreases |steps|
  {
    if steps == [] {
      StepGood(sys, step, env);
    } else {
      var next := Do(sys, steps[0], env).sys;
      StepGood(sys, steps[0], env);
      if steps[0].Timeout? && Live(sys.s) {
        StruckHarmless(sys, env);
        HarmlessRun(next, steps[1..], env);
        HarmlessStep(Exec(next, steps[1..], env), step, env);
      } else {
        if !steps[0].Timeout? {
          StepKeepsTimedout(sys, steps[0], env);
        }
        NoLateStrikeSafe(next, steps[1..], step, env);
      }
    }
  }

  /** Draining before cancelling suffices for the cleaner in every run but those in which the
      timer strikes late; what a late strike can lead to, TimerHoldsExactly says. */
  lemma DrainingSuffices(steps: seq<Step>, step: Step, env: nat -> Env)
    requires NoLateStrike(START, steps, env)
    ensures !CleanerHeld(Exec(START, steps, env), step, env)
  {
    StartInv();
    NoLateStrikeSafe(START, steps, step, env);
  }
}
