/** What the workers guarantee over whole runs, for every interleaving of their steps: which
    of them can be refused the cancellation of a read, who closes a session, and how often. */
module WorkerTheorems {
  import opened SessionState
  import opened Loans
  import Dismissal
  import opened Workers
  import opened WorkerFrames
  import opened WorkerSafety
  import opened WorkerRuns

  /** Which kind of worker a step runs; data, expiry, attach and reply steps run none. */
  function Actor(sys: System, step: Step): Option<Who> {
    match step
    case Attach(_) => None
    case Data(_, _, _, _) => None
    case Expire(_, _) => None
    case Reply(_, _) => None
    case Release(_) => Some(Releaser)
    case ReadRequest(_, _, _) => Some(Requester)
    case DeleteReader(_) => Some(Deleter)
    case DeleteClient => Some(Closer)
    case Timeout => Some(Timer)
    case Reset(_) => Some(Resetter)
    case Cleanup(_) => Some(Cleaner)
    case Sweep(_) => Some(Sweeper)
    case Resume(w) => if w < |sys.ws| then Some(sys.ws[w].who) else None
  }

  /** The life-cycle flags change only by what the step's worker may do to them. */
  predicate LifeStep(sys: System, step: Step, l': Life) {
    l' == sys.s.life || (Actor(sys, step).Some? && Moves(Actor(sys, step).value, sys.s.life, l'))
  }

  /** A closer that has still to leave its client without forward requests. */
  ghost predicate CloserDisposing(sys: System) {
    exists w :: 0 <= w < |sys.ws| && sys.ws[w].who.Closer? && Disposing(sys.ws[w])
  }

  /** A refusal hits a READ, or the cleaner of a session that timed out while a DELETE of its
      client was still giving samples back. */
  ghost predicate Excused(sys: System, refused: Option<Refusal>) {
    refused.Some? ==>
      refused.value.who.Requester? || (refused.value.who.Cleaner? && sys.s.life.timedout && CloserDisposing(sys))
  }

  lemma CleanerExcused(sys: System)
    requires SysInv(sys) && sys.s.life.present && sys.s.life.deleted && sys.s.forwards != []
    ensures sys.s.life.timedout && CloserDisposing(sys)
  {
    var w :| 0 <= w < |sys.ws| && Disposing(sys.ws[w]);
    assert WorkerLife(sys.ws[w], sys.s.life, false);
  }

  ghost predicate Good(sys: System, step: Step, env: nat -> Env) {
    var r := Do(sys, step, env);
    SysInv(r.sys) && LifeStep(sys, step, r.sys.s.life) && Excused(sys, r.refused)
  }

  lemma WokenIs(sys: System, w: nat, env: nat -> Env)
    requires Awaiting(sys, w) && sys.s.life.present
    ensures var p := Woken(sys, w, env);
            Do(sys, Resume(w), env) == Stepped(System(p.s, sys.ws[w := Worker(sys.ws[w].who, p.prog)]), Refused(sys.ws[w].who, p.refused))
  {
  }

  /** A resumed worker's progress that fits in makes a good step. */
  lemma ResumedGood(sys: System, w: nat, p: Progress, env: nat -> Env)
    requires SysInv(sys) && w < |sys.ws| && sys.s.life.present && sys.ws[w].prog != []
    requires Do(sys, Resume(w), env) == Stepped(System(p.s, sys.ws[w := Worker(sys.ws[w].who, p.prog)]), Refused(sys.ws[w].who, p.refused))
    requires SysInv(System(p.s, sys.ws[w := Worker(sys.ws[w].who, p.prog)])) && Moves(sys.ws[w].who, sys.s.life, p.s.life)
    requires p.refused.Some? ==> sys.ws[w].who.Requester? || (sys.ws[w].who.Cleaner? && sys.s.forwards != [])
    ensures Good(sys, Resume(w), env)
  {
    if sys.ws[w].who.Cleaner? && sys.s.forwards != [] {
      assert WorkerLife(sys.ws[w], sys.s.life, false);
      CleanerExcused(sys);
    }
  }

  lemma AwaitStep(sys: System, w: nat, env: nat -> Env)
    requires SysInv(sys) && Awaiting(sys, w) && sys.s.life.present
    ensures Good(sys, Resume(w), env)
  {
    WokenInv(sys, w, env);
    WokenIs(sys, w, env);
    ResumedGood(sys, w, Woken(sys, w, env), env);
  }

  lemma ReenterIs(sys: System, w: nat, env: nat -> Env)
    requires w < |sys.ws| && sys.s.life.present && sys.ws[w].prog != []
    requires sys.ws[w].prog[0].Leave? || (sys.ws[w].prog[0].AwaitCleanup? && sys.s.life.cleaned)
    ensures var p := Reentered(sys, w, env);
            Do(sys, Resume(w), env) == Stepped(System(p.s, sys.ws[w := Worker(sys.ws[w].who, p.prog)]), Refused(sys.ws[w].who, p.refused))
  {
  }

  lemma ReenterStep(sys: System, w: nat, env: nat -> Env)
    requires SysInv(sys) && w < |sys.ws| && sys.s.life.present && sys.ws[w].prog != []
    requires sys.ws[w].prog[0].Leave? || (sys.ws[w].prog[0].AwaitCleanup? && sys.s.life.cleaned)
    ensures Good(sys, Resume(w), env)
  {
    ReenteredInv(sys, w, env);
    ReenterIs(sys, w, env);
    ResumedGood(sys, w, Reentered(sys, w, env), env);
  }

  lemma ResumeStep(sys: System, w: nat, env: nat -> Env)
    requires SysInv(sys) && w < |sys.ws|
    ensures Good(sys, Resume(w), env)
  {
    var prog := sys.ws[w].prog;
    if prog == [] || !Blocking(prog[0]) || (prog[0].AwaitCleanup? && !sys.s.life.cleaned) {
      assert DoResume(sys, w, env) == Quiet(sys, sys.s);
    } else if !sys.s.life.present {
      AbandonInv(sys, w);
    } else if prog[0].Await? {
      AwaitStep(sys, w, env);
    } else {
      ReenterStep(sys, w, env);
    }
  }

  lemma MessageStep(sys: System, step: Step, env: nat -> Env)
    requires SysInv(sys) && (step.Attach? || step.Data? || step.Expire? || step.Reply? || step.Release? || step.Sweep?)
    ensures Good(sys, step, env)
  {
    match step {
      case Attach(id) =>
        if id !in sys.s.readers && id != EVERY_READER {
          AttachInv(sys, id);
        }
      case Data(id, sn, now, d) =>
        if Do(sys, step, env) != Quiet(sys, sys.s) {
          DataInv(sys, id, sn, now, d);
          ProcessFrame(sys.s, id, sn, now, d);
        }
      case Expire(id, now) =>
        if HasRead(sys.s, id) {
          ExpireInv(sys, id);
        }
      case Reply(stream, sn) =>
        if NextOnStream(sys.s.queue, stream, sn) {
          ReplyInv(sys, stream, sn);
        }
      case Release(i) =>
        if i < |sys.s.queue| {
          ReleaseInv(sys, i, env);
        }
      case Sweep(id) =>
        if HasRead(sys.s, id) {
          SweepInv(sys, id, env);
        }
    }
  }

  lemma LifeCycleStep(sys: System, step: Step, env: nat -> Env)
    requires SysInv(sys)
    requires step.ReadRequest? || step.DeleteReader? || step.DeleteClient? || step.Timeout? || step.Reset?
    ensures Good(sys, step, env)
  {
    match step {
      case ReadRequest(id, stream, spec) =>
        if id in sys.s.readers {
          ReadInv(sys, id, stream, spec, env);
        }
      case DeleteReader(id) =>
        if id in sys.s.readers {
          DeleteInv(sys, id, env);
        }
      case DeleteClient =>
        if Hears(sys.s) {
          DeleteClientInv(sys, env);
        }
      case Timeout =>
        if Live(sys.s) {
          TimeoutInv(sys, env);
        }
      case Reset(order) =>
        if Live(sys.s) {
          ResetInv(sys, order, env);
        }
    }
  }

  lemma CleanupStep(sys: System, order: seq<ReaderId>, env: nat -> Env)
    requires SysInv(sys)
    ensures Good(sys, Cleanup(order), env)
  {
    if sys.s.life.present && sys.s.life.deleted {
      CleanupInv(sys, order, env);
      if sys.s.forwards == [] {
        CleanupUnrefused(sys, order, env);
      } else {
        CleanerExcused(sys);
      }
    }
  }

  /** Every step keeps the invariant, changes the life-cycle flags only as its worker may, and
      is refused only where a refusal is excused. */
  lemma StepGood(sys: System, step: Step, env: nat -> Env)
    requires SysInv(sys)
    ensures Good(sys, step, env)
  {
    match step {
      case Resume(w) =>
        if w < |sys.ws| {
          ResumeStep(sys, w, env);
        }
      case ReadRequest(_, _, _) => LifeCycleStep(sys, step, env);
      case DeleteReader(_) => LifeCycleStep(sys, step, env);
      case DeleteClient => LifeCycleStep(sys, step, env);
      case Timeout => LifeCycleStep(sys, step, env);
      case Reset(_) => LifeCycleStep(sys, step, env);
      case Cleanup(order) => CleanupStep(sys, order, env);
      case _ => MessageStep(sys, step, env);
    }
  }

  lemma StartInv()
    ensures SysInv(START)
  {
    assert forall id :: !HasRead(FRESH, id);
  }

  lemma {:induction false} ExecInv(sys: System, steps: seq<Step>, env: nat -> Env)
    requires SysInv(sys)
    ensures SysInv(Exec(sys, steps, env))
    decreases |steps|
  {
    if steps != [] {
      StepGood(sys, steps[0], env);
      ExecInv(Do(sys, steps[0], env).sys, steps[1..], env);
    }
  }

  /** In every state that any interleaving can reach the loan invariant holds. */
  lemma LoansAlwaysExact(steps: seq<Step>, env: nat -> Env)
    ensures Inv(Exec(START, steps, env).s)
  {
    StartInv();
    ExecInv(START, steps, env);
  }

  // ----- who is refused -----

  /** Over any run, only a READ or the cleaner of a session that timed out under a DELETE of
      its client is refused the cancellation of a read: never a reset, never the deletion of a
      reader, never the timer, the closer, a sweep or the release of a message. */
  lemma RefusalsExcused(steps: seq<Step>, step: Step, env: nat -> Env)
    ensures Excused(Exec(START, steps, env), Do(Exec(START, steps, env), step, env).refused)
  {
    StartInv();
    ExecInv(START, steps, env);
    StepGood(Exec(START, steps, env), step, env);
  }

  lemma PendingIff(s: Session, id: ReaderId)
    requires Inv(s)
    ensures (HasRead(s, id) && ReadOf(s, id).samples != []) <==> Dismissal.SomeOf(s.forwards, id)
  {
    if HasRead(s, id) && ReadOf(s, id).samples != [] {
      var i := MineMember(s.forwards, id, 0);
    }
    if i :| 0 <= i < |s.forwards| && s.forwards[i].data.reader == id {
      MineSplit(s.forwards, i, id);
    }
  }

  lemma ReadPending(s: Session, id: ReaderId, stream: StreamId, env: nat -> Env)
    requires Inv(s) && id != EVERY_READER
    ensures var d := if Reliable(stream) then Drain(s, Match(Some(stream), id), env) else Drained(s, Done);
            d.out.Done? ==> (HasRead(d.s, id) && ReadOf(d.s, id).samples != [] <==> Dismissal.SomeElsewhere(s.forwards, id, stream))
  {
    var m := Match(Some(stream), id);
    if Reliable(stream) {
      var d := Drain(s, m, env);
      if d.out.Done? {
        DrainKeepsInv(s, m, env);
        Dismissal.DrainSurvivors(s, m, env);
        PendingIff(d.s, id);
        Dismissal.LeftElsewhere(s.forwards, id, stream);
      }
    } else {
      PendingIff(s, id);
      forall i | 0 <= i < |s.forwards| && s.forwards[i].data.reader == id
        ensures Dismissal.OnOtherStream(s.forwards[i], id, stream)
      {
        assert Reliable(s.forwards[i].stream);
      }
    }
  }

  /** Whether a READ, from a session with the reader's stream already set to the requested
      one, has to wait for the cancellation of a read before it can go on. */
  ghost predicate ReadWaits(s: Session, id: ReaderId, stream: StreamId, env: nat -> Env) {
    Reliable(stream) && Drain(s, Match(Some(stream), id), env).out.Blocked?
  }

  lemma ReadRefusal(s: Session, id: ReaderId, stream: StreamId, spec: ReadSpec, env: nat -> Env)
    requires Sound(s) && id != EVERY_READER && !ReadWaits(s, id, stream, env)
    ensures Run(s, ReadProgram(id, stream, spec), env).refused.Some? <==> Dismissal.SomeElsewhere(s.forwards, id, stream)
  {
    Dismissed(s, Match(Some(stream), id), env);
    RunRead(s, id, stream, spec, env);
    ReadPending(s, id, stream, env);
  }

  lemma ReadIs(sys: System, id: ReaderId, stream: StreamId, spec: ReadSpec, env: nat -> Env)
    requires Hears(sys.s) && id in sys.s.readers
    ensures Do(sys, ReadRequest(id, stream, spec), env).refused.Some?
            <==> Run(Requested(sys.s, id, stream), ReadProgram(id, stream, spec), env).refused.Some?
  {
  }

  lemma ReadRefusedIn(sys: System, id: ReaderId, stream: StreamId, spec: ReadSpec, env: nat -> Env)
    requires Sound(sys.s) && Hears(sys.s) && id in sys.s.readers && !ReadWaits(Requested(sys.s, id, stream), id, stream, env)
    ensures Do(sys, ReadRequest(id, stream, spec), env).refused.Some? <==> Dismissal.SomeElsewhere(sys.s.forwards, id, stream)
  {
    RequestedFrame(sys.s, id, stream);
    ReadRefusal(Requested(sys.s, id, stream), id, stream, spec, env);
    ReadIs(sys, id, stream, spec, env);
  }

  /** A READ that does not have to wait first is refused exactly when some forward request of
      its reader travels on a stream other than the requested one. */
  lemma ReadRefusedExactly(steps: seq<Step>, id: ReaderId, stream: StreamId, spec: ReadSpec, env: nat -> Env)
    ensures var sys := Exec(START, steps, env);
            Hears(sys.s) && id in sys.s.readers && !ReadWaits(Requested(sys.s, id, stream), id, stream, env) ==>
              (Do(sys, ReadRequest(id, stream, spec), env).refused.Some? <==> Dismissal.SomeElsewhere(sys.s.forwards, id, stream))
  {
    StartInv();
    ExecInv(START, steps, env);
    var sys := Exec(START, steps, env);
    if Hears(sys.s) && id in sys.s.readers && !ReadWaits(Requested(sys.s, id, stream), id, stream, env) {
      ReadRefusedIn(sys, id, stream, spec, env);
    }
  }

  // ----- the time-out flag -----

  lemma PerformKeepsTimedout(s: Session, i: Instr, env: nat -> Env)
    requires !Blocking(i)
    ensures match Perform(s, i, env)
            case Next(t) => t.life.timedout == s.life.timedout
            case Wait(t, _, _) => t.life.timedout == s.life.timedout
            case GiveUp(_) => true
  {
    if i.Dismiss? {
      Dismissal.DrainKeepsCounts(s, i.m, env);
    }
  }

  lemma {:induction false} RunKeepsTimedout(s: Session, prog: seq<Instr>, env: nat -> Env)
    ensures Run(s, prog, env).s.life.timedout == s.life.timedout
    decreases |prog|
  {
    if prog != [] && !Blocking(prog[0]) {
      PerformKeepsTimedout(s, prog[0], env);
      var a := Perform(s, prog[0], env);
      if a.Next? {
        RunKeepsTimedout(a.s, prog[1..], env);
      }
    }
  }

  lemma LaunchKeepsTimedout(sys: System, s: Session, who: Who, prog: seq<Instr>, env: nat -> Env)
    ensures Launch(sys, s, who, prog, env).sys.s.life.timedout == s.life.timedout
  {
    RunKeepsTimedout(s, prog, env);
  }

  lemma ResumeKeepsTimedout(sys: System, w: nat, env: nat -> Env)
    requires w < |sys.ws| && sys.ws[w].prog != []
    ensures DoResume(sys, w, env).sys.s.life.timedout == sys.s.life.timedout
  {
    var prog := sys.ws[w].prog;
    RunKeepsTimedout(sys.s, prog[1..], env);
    RunKeepsTimedout(CloseRecord(sys.s), prog[1..], env);
    if prog[0].Await? {
      RunKeepsTimedout(EndCancel(sys.s, prog[0].id), prog[1..], env);
    }
  }

  lemma StepKeepsTimedout(sys: System, step: Step, env: nat -> Env)
    requires !step.Timeout?
    ensures Do(sys, step, env).sys.s.life.timedout == sys.s.life.timedout
  {
    match step {
      case Release(i) =>
        if i < |sys.s.queue| {
          var r := ReleaseMessage(sys.s, i, env);
          ReleaseLife(sys.s, i, env);
          LaunchKeepsTimedout(sys, r.s, Releaser, if r.out.Completed? then [Await(r.out.id)] else [], env);
        }
      case ReadRequest(id, stream, spec) =>
        if id in sys.s.readers {
          LaunchKeepsTimedout(sys, Requested(sys.s, id, stream), Requester, ReadProgram(id, stream, spec), env);
        }
      case DeleteReader(id) => LaunchKeepsTimedout(sys, sys.s, Deleter, DeleteProgram(id), env);
      case DeleteClient => LaunchKeepsTimedout(sys, sys.s.(life := sys.s.life.(disposed := true)), Closer, CloseProgram(), env);
      case Reset(order) => LaunchKeepsTimedout(sys, sys.s.(life := sys.s.life.(resetting := true)), Resetter, ResetProgram(order), env);
      case Cleanup(order) => LaunchKeepsTimedout(sys, sys.s, Cleaner, CleanupProgram(order), env);
      case Sweep(id) =>
        if HasRead(sys.s, id) {
          LaunchKeepsTimedout(sys, sys.s, Sweeper, [Dismiss(Match(Some(sys.s.readers[id].stream), id))], env);
          LaunchKeepsTimedout(sys, sys.s, Sweeper, [Cancel(id)], env);
        }
      case Resume(w) =>
        if w < |sys.ws| && sys.ws[w].prog != [] {
          ResumeKeepsTimedout(sys, w, env);
        }
      case _ =>
    }
  }
}
