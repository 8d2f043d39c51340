/** When a read is marked complete, and that every read so marked has had all it was asked for. */
module ReadMarks {
  import opened SessionState
  import opened Workers
  import opened WorkerRuns

  /** A read marked complete is bounded, and has received as many samples as its bound allows. */
  predicate Reached(s: Session, k: ReaderId) {
    HasRead(s, k) && ReadOf(s, k).complete ==>
      var r := ReadOf(s, k);
      (r.max > 0 || r.maxElapsed > 0) && (r.max > 0 ==> r.rcvd >= r.max)
  }

  lemma ReleaseReached(s: Session, i: nat, env: nat -> Env, k: ReaderId)
    requires i < |s.queue| && Reached(s, k)
    ensures Reached(ReleaseMessage(s, i, env).s, k)
  {
  }

  lemma {:induction false} DrainReached(s: Session, m: Match, env: nat -> Env, k: ReaderId)
    requires Reached(s, k)
    ensures Reached(Drain(s, m, env).s, k)
    decreases |s.queue|
  {
    var g := MatchIndex(s.forwards, m);
    if g < |s.forwards| {
      var i := QueuedIndex(s.queue, s.forwards[g].stream, s.forwards[g].sn);
      if i < |s.queue| {
        ReleaseReached(s, i, env, k);
        DrainReached(ReleaseMessage(s, i, env).s, m, env, k);
      }
    }
  }

  lemma PerformReached(s: Session, i: Instr, env: nat -> Env, k: ReaderId)
    requires !Blocking(i) && Reached(s, k)
    ensures var a := Perform(s, i, env); a.Next? || a.Wait? ==> Reached(a.s, k)
  {
    if i.Dismiss? {
      DrainReached(s, i.m, env, k);
    }
  }

  lemma {:induction false} RunReached(s: Session, prog: seq<Instr>, env: nat -> Env, k: ReaderId)
    requires Reached(s, k)
    ensures Reached(Run(s, prog, env).s, k)
    decreases |prog|
  {
    if prog != [] && !Blocking(prog[0]) {
      PerformReached(s, prog[0], env, k);
      var a := Perform(s, prog[0], env);
      if a.Next? {
        RunReached(a.s, prog[1..], env, k);
      }
    }
  }

  lemma LaunchReached(sys: System, s: Session, who: Who, prog: seq<Instr>, env: nat -> Env, k: ReaderId)
    requires Reached(s, k)
    ensures Reached(Launch(sys, s, who, prog, env).sys.s, k)
  {
    RunReached(s, prog, env, k);
  }

  lemma ResumeReached(sys: System, w: nat, env: nat -> Env, k: ReaderId)
    requires w < |sys.ws| && Reached(sys.s, k)
    ensures Reached(DoResume(sys, w, env).sys.s, k)
  {
    var prog := sys.ws[w].prog;
    if prog != [] {
      RunReached(sys.s, prog[1..], env, k);
      RunReached(CloseRecord(sys.s), prog[1..], env, k);
      if prog[0].Await? {
        RunReached(EndCancel(sys.s, prog[0].id), prog[1..], env, k);
      }
    }
  }

  lemma ProcessReached(s: Session, id: ReaderId, sn: int, now: int, d: Delivery, k: ReaderId)
    requires HasRead(s, id) && Reached(s, k)
    ensures Reached(ProcessSample(s, id, sn, now, d).s, k)
  {
  }

  lemma QuietReached(sys: System, step: Step, env: nat -> Env, k: ReaderId)
    requires Reached(sys.s, k) && (step.Attach? || step.Data? || step.Expire? || step.Reply?)
    ensures Reached(Do(sys, step, env).sys.s, k)
  {
    if step.Data? && HasRead(sys.s, step.id) {
      ProcessReached(sys.s, step.id, step.sn, step.now, step.d, k);
    }
  }

  lemma StartReached(sys: System, step: Step, env: nat -> Env, k: ReaderId)
    requires Reached(sys.s, k)
    requires step.DeleteReader? || step.DeleteClient? || step.Timeout? || step.Reset? || step.Cleanup?
    ensures Reached(Do(sys, step, env).sys.s, k)
  {
    match step {
      case DeleteReader(id) => LaunchReached(sys, sys.s, Deleter, DeleteProgram(id), env, k);
      case DeleteClient => LaunchReached(sys, sys.s.(life := sys.s.life.(disposed := true)), Closer, CloseProgram(), env, k);
      case Timeout => LaunchReached(sys, Struck(sys.s), Timer, (if sys.s.life.disposed then [] else [Dismiss(ALL)]) + [Dispose], env, k);
      case Reset(order) =>
        LaunchReached(sys, sys.s.(life := sys.s.life.(resetting := true)), Resetter, ResetProgram(order), env, k);
      case Cleanup(order) => LaunchReached(sys, sys.s, Cleaner, CleanupProgram(order), env, k);
    }
  }

  lemma ReleasedReached(sys: System, i: nat, env: nat -> Env, k: ReaderId)
    requires Reached(sys.s, k)
    ensures Reached(Do(sys, Release(i), env).sys.s, k)
  {
    if i < |sys.s.queue| {
      ReleaseReached(sys.s, i, env, k);
      var r := ReleaseMessage(sys.s, i, env);
      LaunchReached(sys, r.s, Releaser, if r.out.Completed? then [Await(r.out.id)] else [], env, k);
    }
  }

  lemma StepReached(sys: System, step: Step, env: nat -> Env, k: ReaderId)
    requires Reached(sys.s, k)
    ensures Reached(Do(sys, step, env).sys.s, k)
  {
    match step {
      case Resume(w) =>
        if w < |sys.ws| {
          ResumeReached(sys, w, env, k);
        }
      case ReadRequest(id, stream, spec) =>
        if id in sys.s.readers {
          LaunchReached(sys, Requested(sys.s, id, stream), Requester, ReadProgram(id, stream, spec), env, k);
        }
      case Sweep(id) =>
        if HasRead(sys.s, id) {
          LaunchReached(sys, sys.s, Sweeper, [Dismiss(Match(Some(sys.s.readers[id].stream), id))], env, k);
          LaunchReached(sys, sys.s, Sweeper, [Cancel(id)], env, k);
        }
      case Release(i) => ReleasedReached(sys, i, env, k);
      case Attach(_) => QuietReached(sys, step, env, k);
      case Data(_, _, _, _) => QuietReached(sys, step, env, k);
      case Expire(_, _) => QuietReached(sys, step, env, k);
      case Reply(_, _) => QuietReached(sys, step, env, k);
      case _ => StartReached(sys, step, env, k);
    }
  }

  lemma {:induction false} ExecReached(sys: System, steps: seq<Step>, env: nat -> Env, k: ReaderId)
    requires Reached(sys.s, k)
    ensures Reached(Exec(sys, steps, env).s, k)
    decreases |steps|
  {
    if steps != [] {
      StepReached(sys, steps[0], env, k);
      ExecReached(Do(sys, steps[0], env).sys, steps[1..], env, k);
    }
  }

  /** In every state of every interleaving a read that is marked complete is bounded and has had as
      many samples as it was to have. */
  lemma CompleteReadsHaveAll(steps: seq<Step>, env: nat -> Env, k: ReaderId)
    ensures Reached(Exec(START, steps, env).s, k)
  {
    ExecReached(START, steps, env, k);
  }

  /** A look at the clock marks an open read of an active session complete exactly when it is
      bounded, its time is over and its samples are in; it changes nothing else. */
  lemma ExpireMarksExactly(sys: System, id: ReaderId, now: int, env: nat -> Env)
    requires Live(sys.s) && HasRead(sys.s, id) && ReadOf(sys.s, id).open
    ensures var t := Do(sys, Expire(id, now), env).sys;
            var r := ReadOf(sys.s, id);
            && t.ws == sys.ws && HasRead(t.s, id)
            && (ReadOf(t.s, id).complete <==>
                  r.complete || ((r.max > 0 || r.maxElapsed > 0) && (r.max > 0 ==> r.rcvd >= r.max)
                                 && (r.maxElapsed > 0 ==> now - r.start >= r.maxElapsed)))
            && t.s == WithRead(sys.s, id, Some(r.(complete := ReadOf(t.s, id).complete)))
  {
    assert sys.s.readers == sys.s.readers[id := sys.s.readers[id]];
  }

  /** Attaching touches no reader that is there. */
  lemma AttachAdds(sys: System, id: ReaderId, env: nat -> Env)
    ensures var t := Do(sys, Attach(id), env).sys;
            && (forall k :: k in sys.s.readers ==> k in t.s.readers && t.s.readers[k] == sys.s.readers[k])
            && (forall k :: k in t.s.readers && k !in sys.s.readers ==> k == id && t.s.readers[k].read.None?)
            && (Live(sys.s) && id != EVERY_READER ==> id in t.s.readers)
  {
  }
}
