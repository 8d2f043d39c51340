/** What a reset comes to: when the session is active again, when it stays resetting for good, and
    which reads are left on the readers that the resetter went through. */
module ResetRuns {
  import opened SessionState
  import opened Loans
  import opened Workers
  import opened WorkerFrames
  import opened WorkerSafety
  import opened WorkerRuns
  import opened WorkerTheorems
  import opened SessionClosing
  import opened SweepRuns
  import TimeoutRace

  // ----- the rest of a resetter's program -----

  function Tail(order: seq<ReaderId>): seq<Instr> { Cancels(order) + [EndReset] }

  /** What the order has behind its first reader with a read. */
  function Beyond(s: Session, order: seq<ReaderId>): (r: seq<ReaderId>)
    ensures forall k :: k in r ==> k in order
    ensures forall k :: k in order && HasRead(s, k) ==> k in r || FirstReading(s, order) == Some(k)
  {
    if order == [] then [] else if HasRead(s, order[0]) then order[1..] else Beyond(s, order[1..])
  }

  function Awakened(s: Session): Session { s.(life := s.life.(resetting := false)) }

  /** With no forward request left: the readers of the order without a read are passed over; the
      first one with a read is closed and awaited, unless another worker has it in hand, at which
      the resetter gives up; only without any is the session active again. */
  lemma {:induction false} RunTail(s: Session, order: seq<ReaderId>, env: nat -> Env)
    requires Sound(s) && s.forwards == []
    ensures var first := FirstReading(s, order);
            Run(s, Tail(order), env) ==
            if first.None? then Progress(Awakened(s), [], None)
            else if Closed(s, first.value) then Progress(s, [], None)
            else Progress(CloseRead(s, first.value), [Await(first.value)] + Tail(Beyond(s, order)), None)
    decreases |order|
  {
    if order == [] {
      assert Tail(order) == [EndReset] + [];
      RunNext(s, EndReset, [], env);
    } else {
      assert Tail(order) == [Cancel(order[0])] + Tail(order[1..]);
      RunNext(s, Cancel(order[0]), Tail(order[1..]), env);
      if HasRead(s, order[0]) {
        PendingIff(s, order[0]);
      } else {
        RunTail(s, order[1..], env);
      }
    }
  }

  lemma WholeIs(order: seq<ReaderId>)
    ensures ResetProgram(order) == [Dismiss(ALL)] + ([ResetStreams] + Tail(order))
  {
    assert [ResetStreams] + Tail(order) == [ResetStreams] + Cancels(order) + [EndReset];
  }

  lemma RunStreams(s: Session, order: seq<ReaderId>, env: nat -> Env)
    ensures Run(s, [ResetStreams] + Tail(order), env) == Run(s.(queue := []), Tail(order), env)
  {
    RunNext(s, ResetStreams, Tail(order), env);
  }

  /** The whole program: it waits at its dismissal and begins again, or goes on to its readers with
      no forward request and no message left. */
  lemma RunWhole(s: Session, order: seq<ReaderId>, env: nat -> Env)
    requires Sound(s)
    ensures var d := Drain(s, ALL, env);
            && Sound(d.s) && d.s.life == s.life && !d.out.Stuck?
            && (d.out.Blocked? ==> Run(s, ResetProgram(order), env) == Progress(d.s, [Await(d.out.id)] + ResetProgram(order), None))
            && (d.out.Done? ==>
                  d.s.forwards == [] && Sound(d.s.(queue := []))
                  && Run(s, ResetProgram(order), env) == Run(d.s.(queue := []), Tail(order), env))
  {
    var d := Drain(s, ALL, env);
    WholeIs(order);
    RunDismiss(s, ALL, [ResetStreams] + Tail(order), env);
    if d.out.Done? {
      RunStreams(d.s, order, env);
      EmptyQueueFrame(d.s);
    }
  }

  /** A resetter at work awaits a cancellation, before all of its program or before the rest of its
      readers. */
  ghost predicate AtReset(prog: seq<Instr>) {
    prog != [] ==> prog[0].Await? && exists rest :: prog[1..] == ResetProgram(rest) || prog[1..] == Tail(rest)
  }

  /** Where a resetter's run ends: active again, or at a read in another worker's hands, or in a
      wait. */
  ghost predicate Ended(s: Session, prog: seq<Instr>, p: Progress) {
    && AtReset(p.prog)
    && (p.prog == [] ==> !p.s.life.resetting || exists k :: Cancel(k) in prog && Closed(p.s, k))
    && (p.prog != [] ==> p.s.life == s.life)
  }

  lemma TailCancels(order: seq<ReaderId>, k: ReaderId)
    ensures Cancel(k) in Tail(order) <==> k in order
    ensures Cancel(k) in ResetProgram(order) <==> k in order
  {
    if k in order {
      var j :| 0 <= j < |order| && order[j] == k;
      assert Tail(order)[j] == Cancel(k) && ResetProgram(order)[j + 2] == Cancel(k);
    }
  }

  lemma TailEnded(s: Session, order: seq<ReaderId>, env: nat -> Env)
    requires Sound(s) && s.forwards == []
    ensures Ended(s, Tail(order), Run(s, Tail(order), env))
  {
    RunTail(s, order, env);
    var first := FirstReading(s, order);
    if first.Some? {
      FirstIn(s, order);
      TailCancels(order, first.value);
      var p := [Await(first.value)] + Tail(Beyond(s, order));
      assert p[1..] == Tail(Beyond(s, order));
    }
  }

  lemma {:induction false} FirstIn(s: Session, order: seq<ReaderId>)
    ensures FirstReading(s, order).Some? ==> FirstReading(s, order).value in order
    ensures FirstReading(s, order).None? ==> forall k :: k in order ==> !HasRead(s, k)
    decreases |order|
  {
    if order != [] && !HasRead(s, order[0]) {
      FirstIn(s, order[1..]);
    }
  }

  lemma WholeEnded(s: Session, order: seq<ReaderId>, env: nat -> Env)
    requires Sound(s)
    ensures Ended(s, ResetProgram(order), Run(s, ResetProgram(order), env))
  {
    RunWhole(s, order, env);
    var d := Drain(s, ALL, env);
    if d.out.Done? {
      TailEnded(d.s.(queue := []), order, env);
      forall k | Cancel(k) in Tail(order)
        ensures Cancel(k) in ResetProgram(order)
      {
        TailCancels(order, k);
      }
    } else {
      var p := [Await(d.out.id)] + ResetProgram(order);
      assert p[1..] == ResetProgram(order);
    }
  }

  // ----- every resetter -----

  ghost predicate AllResets(ws: seq<Worker>) { forall w :: 0 <= w < |ws| && ws[w].who.Resetter? ==> AtReset(ws[w].prog) }

  predicate Busy(ws: seq<Worker>) { exists w :: 0 <= w < |ws| && ws[w].who.Resetter? && ws[w].prog != [] }

  lemma ResetIs(sys: System, order: seq<ReaderId>, env: nat -> Env)
    requires Live(sys.s)
    ensures var p := Run(sys.s.(life := sys.s.life.(resetting := true)), ResetProgram(order), env);
            Do(sys, Reset(order), env).sys == System(p.s, sys.ws + [Worker(Resetter, p.prog)])
  {
  }

  lemma ResetLaunched(sys: System, order: seq<ReaderId>, env: nat -> Env)
    requires SysInv(sys) && Live(sys.s)
    ensures var s := sys.s.(life := sys.s.life.(resetting := true));
            var p := Run(s, ResetProgram(order), env);
            && Do(sys, Reset(order), env).sys == System(p.s, sys.ws + [Worker(Resetter, p.prog)])
            && Sound(s) && Ended(s, ResetProgram(order), p)
  {
    var s := sys.s.(life := sys.s.life.(resetting := true));
    ResetIs(sys, order, env);
    LifeFrame(sys.s, s.life);
    WholeEnded(s, order, env);
  }

  /** A resetter that wakes up has its session without forward requests, or begins again. */
  lemma ResetAwakes(sys: System, w: nat)
    requires SysInv(sys) && w < |sys.ws| && sys.ws[w].who.Resetter? && sys.ws[w].prog != [] && AtReset(sys.ws[w].prog)
    requires sys.s.life.present
    ensures var s := EndCancel(sys.s, sys.ws[w].prog[0].id);
            && Sound(s) && s.life == sys.s.life && s.life.resetting && !HasRead(s, sys.ws[w].prog[0].id)
            && exists rest :: sys.ws[w].prog[1..] == ResetProgram(rest) || (sys.ws[w].prog[1..] == Tail(rest) && s.forwards == [])
  {
    var prog := sys.ws[w].prog;
    assert Shape(Resetter, prog);
    ResumeStart(sys, w);
    assert WorkerLife(sys.ws[w], sys.s.life, sys.s.forwards == []);
    var rest :| prog[1..] == ResetProgram(rest) || prog[1..] == Tail(rest);
    if prog[1..] == Tail(rest) {
      assert prog[1] == Tail(rest)[0];
      assert rest != [] ==> Tail(rest)[0] == Cancel(rest[0]);
    }
  }

  lemma ResetResumed(sys: System, w: nat, env: nat -> Env)
    requires SysInv(sys) && w < |sys.ws| && sys.ws[w].who.Resetter? && sys.ws[w].prog != [] && AtReset(sys.ws[w].prog)
    requires sys.s.life.present
    ensures var p := Woken(sys, w, env);
            && Do(sys, Resume(w), env).sys == System(p.s, sys.ws[w := Worker(Resetter, p.prog)])
            && Ended(EndCancel(sys.s, sys.ws[w].prog[0].id), sys.ws[w].prog[1..], p)
  {
    ResetAwakes(sys, w);
    WokenIs(sys, w, env);
    var s := EndCancel(sys.s, sys.ws[w].prog[0].id);
    var rest :| sys.ws[w].prog[1..] == ResetProgram(rest) || (sys.ws[w].prog[1..] == Tail(rest) && s.forwards == []);
    if sys.ws[w].prog[1..] == ResetProgram(rest) {
      WholeEnded(s, rest, env);
    } else {
      TailEnded(s, rest, env);
    }
  }

  /** A step that starts a worker starts one, of the step's kind. */
  lemma NewWorker(sys: System, step: Step, env: nat -> Env)
    ensures var t := Do(sys, step, env).sys;
            |sys.ws| <= |t.ws| <= |sys.ws| + 1
            && (|t.ws| > |sys.ws| ==> Actor(sys, step) == Some(t.ws[|sys.ws|].who) && !step.Resume?)
            && (|t.ws| > |sys.ws| && step.Reset? ==> Live(sys.s))
  {
  }

  lemma ResetsStep(sys: System, step: Step, env: nat -> Env)
    requires SysInv(sys) && AllResets(sys.ws)
    ensures AllResets(Do(sys, step, env).sys.ws)
  {
    var t := Do(sys, step, env).sys;
    NewWorker(sys, step, env);
    forall w: nat | w < |t.ws| && t.ws[w].who.Resetter?
      ensures AtReset(t.ws[w].prog)
    {
      if w == |sys.ws| {
        assert step.Reset?;
        ResetLaunched(sys, step.order, env);
      } else if step == Resume(w) {
        ResumeKeepsWho(sys, w, env);
        if sys.ws[w].prog != [] && sys.s.life.present {
          ResetResumed(sys, w, env);
        }
      } else {
        OthersKeepWorker(sys, step, env, w);
      }
    }
  }

  /** At this step a resetter that still had readers before it gave up, at a reader whose read
      another worker has in hand. */
  ghost predicate GivesUp(sys: System, step: Step, env: nat -> Env) {
    var t := Do(sys, step, env).sys;
    && t.s.life.present && t.s.life.resetting
    && match step
       case Reset(order) => Live(sys.s) && t.ws[|sys.ws|].prog == [] && exists k :: k in order && Closed(t.s, k)
       case Resume(w) =>
         && w < |sys.ws| && sys.ws[w].who.Resetter? && sys.ws[w].prog != [] && t.ws[w].prog == []
         && exists k :: Cancel(k) in sys.ws[w].prog && Closed(t.s, k)
       case _ => false
  }

  /** A session that is resetting has a resetter at work. */
  ghost predicate Explained(sys: System) { sys.s.life.present && sys.s.life.resetting ==> Busy(sys.ws) }

  lemma LaunchExplained(sys: System, order: seq<ReaderId>, env: nat -> Env)
    requires SysInv(sys) && Live(sys.s)
    ensures Explained(Do(sys, Reset(order), env).sys) || GivesUp(sys, Reset(order), env)
  {
    ResetLaunched(sys, order, env);
    var t := Do(sys, Reset(order), env).sys;
    if t.s.life.present && t.s.life.resetting {
      if t.ws[|sys.ws|].prog == [] {
        var k :| Cancel(k) in ResetProgram(order) && Closed(t.s, k);
        TailCancels(order, k);
      }
    }
  }

  lemma EndedExplains(sys: System, w: nat, s: Session, p: Progress)
    requires w < |sys.ws| && sys.ws[w].prog != [] && Ended(s, sys.ws[w].prog[1..], p)
    ensures var t := System(p.s, sys.ws[w := Worker(Resetter, p.prog)]);
            Explained(t) || (t.s.life.present && t.s.life.resetting && t.ws[w].prog == []
                             && exists k :: Cancel(k) in sys.ws[w].prog && Closed(t.s, k))
  {
    var t := System(p.s, sys.ws[w := Worker(Resetter, p.prog)]);
    assert t.ws[w].who.Resetter?;
    if p.s.life.present && p.s.life.resetting && p.prog == [] {
      var k :| Cancel(k) in sys.ws[w].prog[1..] && Closed(p.s, k);
      assert Cancel(k) in sys.ws[w].prog;
    }
  }

  lemma ResumeExplained(sys: System, w: nat, env: nat -> Env)
    requires SysInv(sys) && w < |sys.ws| && sys.ws[w].who.Resetter? && sys.ws[w].prog != [] && AtReset(sys.ws[w].prog)
    requires sys.s.life.present
    ensures Explained(Do(sys, Resume(w), env).sys) || GivesUp(sys, Resume(w), env)
  {
    ResetResumed(sys, w, env);
    EndedExplains(sys, w, EndCancel(sys.s, sys.ws[w].prog[0].id), Woken(sys, w, env));
  }

  /** The step of a resetter, begun or resumed. */
  predicate ByResetter(sys: System, step: Step) {
    (step.Reset? && Live(sys.s))
    || (step.Resume? && step.w < |sys.ws| && sys.ws[step.w].who.Resetter? && sys.ws[step.w].prog != [])
  }

  lemma OthersKeepResetting(sys: System, step: Step, env: nat -> Env)
    requires SysInv(sys) && !ByResetter(sys, step)
    ensures Do(sys, step, env).sys.s.life.resetting == sys.s.life.resetting
  {
    StepGood(sys, step, env);
  }

  lemma ExplainedStep(sys: System, step: Step, env: nat -> Env)
    requires SysInv(sys) && AllResets(sys.ws) && Explained(sys)
    ensures Explained(Do(sys, step, env).sys) || GivesUp(sys, step, env)
  {
    var t := Do(sys, step, env).sys;
    PresentBefore(sys, step, env);
    if t.s.life.present {
      if !ByResetter(sys, step) {
        OthersKeepResetting(sys, step, env);
        if Busy(sys.ws) {
          var w :| 0 <= w < |sys.ws| && sys.ws[w].who.Resetter? && sys.ws[w].prog != [];
          OthersKeepWorker(sys, step, env, w);
          assert t.ws[w] == sys.ws[w];
        }
      } else if step.Reset? {
        LaunchExplained(sys, step.order, env);
      } else {
        ResumeExplained(sys, step.w, env);
      }
    }
  }

  // ----- given up for good -----

  /** The session is resetting and nobody is at it any more. */
  predicate Held(sys: System) { sys.s.life.resetting && !Busy(sys.ws) }

  lemma HeldStep(sys: System, step: Step, env: nat -> Env)
    requires SysInv(sys) && Held(sys)
    ensures Held(Do(sys, step, env).sys)
    ensures !sys.s.life.deleted && !sys.s.life.timedout ==> Do(sys, step, env).sys.s.life == sys.s.life
  {
    var t := Do(sys, step, env).sys;
    StepGood(sys, step, env);
    NewWorker(sys, step, env);
    OthersKeepResetting(sys, step, env);
    forall w: nat | w < |t.ws| && t.ws[w].who.Resetter?
      ensures t.ws[w].prog == []
    {
      if step == Resume(w) {
        ResumeKeepsWho(sys, w, env);
      } else if w < |sys.ws| {
        OthersKeepWorker(sys, step, env, w);
      }
    }
  }

  /** A session that a resetter gave up on stays resetting however the run goes on; and unless it
      was being closed already no flag of it ever changes again: it is never closed. */
  lemma {:induction false} HeldForGood(sys: System, steps: seq<Step>, env: nat -> Env)
    requires SysInv(sys) && Held(sys)
    ensures Held(Exec(sys, steps, env))
    ensures !sys.s.life.deleted && !sys.s.life.timedout ==> Exec(sys, steps, env).s.life == sys.s.life
    decreases |steps|
  {
    if steps != [] {
      HeldStep(sys, steps[0], env);
      StepGood(sys, steps[0], env);
      HeldForGood(Do(sys, steps[0], env).sys, steps[1..], env);
    }
  }

  lemma GivenUpHeld(sys: System, step: Step, env: nat -> Env)
    requires SysInv(sys) && GivesUp(sys, step, env)
    ensures Held(Do(sys, step, env).sys)
  {
    var t := Do(sys, step, env).sys;
    NewWorker(sys, step, env);
    var w := if step.Reset? then |sys.ws| else step.w;
    if step.Reset? {
      NobodyElse(sys, Resetter);
    } else {
      StillAlone(sys, w);
    }
    forall v: nat | v < |t.ws| && t.ws[v].who.Resetter?
      ensures t.ws[v].prog == []
    {
      if v < |sys.ws| && v != w {
        OthersKeepWorker(sys, step, env, v);
      }
    }
  }

  // ----- over whole runs -----

  /** Some resetter has given up in the run. */
  ghost predicate GaveUp(steps: seq<Step>, env: nat -> Env) {
    exists k :: 0 <= k < |steps| && GivesUp(Exec(START, steps[..k], env), steps[k], env)
  }

  lemma GaveUpSnoc(steps: seq<Step>, step: Step, env: nat -> Env)
    ensures GaveUp(steps + [step], env) <==> GaveUp(steps, env) || GivesUp(Exec(START, steps, env), step, env)
  {
    var more := steps + [step];
    assert more[..|steps|] == steps && more[|steps|] == step;
    forall k | 0 <= k < |steps|
      ensures more[..k] == steps[..k] && more[k] == steps[k]
    {
    }
  }

  /** In every run, of a session whose record is there: it is resetting with nobody at it exactly
      if some resetter has given up; otherwise it is resetting only while a resetter is at work. */
  lemma {:induction false} ResettingExactly(steps: seq<Step>, env: nat -> Env)
    ensures var t := Exec(START, steps, env);
            && SysInv(t) && AllResets(t.ws)
            && (t.s.life.present ==> (Held(t) <==> GaveUp(steps, env)))
    decreases |steps|
  {
    if steps == [] {
      StartInv();
    } else {
      var n := |steps| - 1;
      var sys := Exec(START, steps[..n], env);
      assert steps == steps[..n] + [steps[n]];
      TimeoutRace.ExecSnoc(START, steps[..n], steps[n], env);
      GaveUpSnoc(steps[..n], steps[n], env);
      ResettingExactly(steps[..n], env);
      StepGood(sys, steps[n], env);
      ResetsStep(sys, steps[n], env);
      PresentBefore(sys, steps[n], env);
      if Exec(START, steps, env).s.life.present {
        if Held(sys) {
          HeldStep(sys, steps[n], env);
        } else {
          ExplainedStep(sys, steps[n], env);
          if GivesUp(sys, steps[n], env) {
            GivenUpHeld(sys, steps[n], env);
          }
        }
      }
    }
  }
}
