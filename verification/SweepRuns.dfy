/** The sweeper among the other workers: what it has seen to when it is through, in whatever
    windows others came in between. */
module SweepRuns {
  import opened SessionState
  import opened Loans
  import Dismissal
  import opened Workers
  import opened WorkerFrames
  import opened WorkerSafety
  import opened WorkerRuns
  import opened WorkerTheorems
  import Sweep

  /** Nothing of the reader travels on the stream any more, and what samples are pending do so
      elsewhere. */
  ghost predicate Swept(s: Session, id: ReaderId, stream: StreamId) {
    && (forall f :: f in s.forwards && f.data.reader == id ==> f.stream != stream)
    && (HasRead(s, id) && ReadOf(s, id).samples != [] <==> Dismissal.SomeElsewhere(s.forwards, id, stream))
  }

  lemma RunSwept(s: Session, id: ReaderId, stream: StreamId, env: nat -> Env)
    requires Sound(s) && id != EVERY_READER
    ensures var p := Run(s, [Dismiss(Match(Some(stream), id))], env); p.prog == [] ==> Swept(p.s, id, stream)
  {
    var m := Match(Some(stream), id);
    assert [Dismiss(m)] + [] == [Dismiss(m)];
    RunDismiss(s, m, [], env);
    Dismissed(s, m, env);
    var d := Drain(s, m, env);
    if d.out.Done? {
      forall f | f in d.s.forwards && f.data.reader == id
        ensures f.stream != stream
      {
        var k :| 0 <= k < |d.s.forwards| && d.s.forwards[k] == f;
        assert !Matches(d.s.forwards[k], m);
      }
      PendingIff(d.s, id);
      forall i | 0 <= i < |d.s.forwards| && d.s.forwards[i].data.reader == id
        ensures Dismissal.OnOtherStream(d.s.forwards[i], id, stream)
      {
        assert d.s.forwards[i] in d.s.forwards;
      }
    }
  }

  lemma SweepIs(sys: System, id: ReaderId, env: nat -> Env)
    requires sys.s.life.present && HasRead(sys.s, id) && ReadOf(sys.s, id).complete && ReadOf(sys.s, id).samples != []
    ensures var p := Run(sys.s, [Dismiss(Match(Some(sys.s.readers[id].stream), id))], env);
            Do(sys, Sweep(id), env).sys == System(p.s, sys.ws + [Worker(Sweeper, p.prog)])
  {
  }

  /** A sweep that gets through without a wait. */
  lemma SweptAtOnce(steps: seq<Step>, id: ReaderId, env: nat -> Env)
    ensures var sys := Exec(START, steps, env);
            var t := Do(sys, Sweep(id), env).sys;
            sys.s.life.present && HasRead(sys.s, id) && ReadOf(sys.s, id).complete && ReadOf(sys.s, id).samples != []
            && t.ws[|sys.ws|].prog == [] ==>
              Swept(t.s, id, sys.s.readers[id].stream)
  {
    StartInv();
    ExecInv(START, steps, env);
    var sys := Exec(START, steps, env);
    if sys.s.life.present && HasRead(sys.s, id) && ReadOf(sys.s, id).complete && ReadOf(sys.s, id).samples != [] {
      SweepIs(sys, id, env);
      RunSwept(sys.s, id, sys.s.readers[id].stream, env);
    }
  }

  /** A sweep that had to wait for cancellations, once it is through. */
  lemma SweptAtLast(steps: seq<Step>, w: nat, id: ReaderId, stream: StreamId, env: nat -> Env)
    ensures var sys := Exec(START, steps, env);
            w < |sys.ws| && sys.ws[w].who.Sweeper? && |sys.ws[w].prog| == 2 && sys.ws[w].prog[1] == Dismiss(Match(Some(stream), id))
            && id != EVERY_READER && sys.s.life.present ==>
              var t := Do(sys, Resume(w), env).sys;
              t.ws[w].prog == [] ==> Swept(t.s, id, stream)
  {
    StartInv();
    ExecInv(START, steps, env);
    var sys := Exec(START, steps, env);
    if w < |sys.ws| && sys.ws[w].who.Sweeper? && |sys.ws[w].prog| == 2 && sys.ws[w].prog[1] == Dismiss(Match(Some(stream), id))
       && id != EVERY_READER && sys.s.life.present {
      assert Shape(Sweeper, sys.ws[w].prog);
      ResumeStart(sys, w);
      WokenIs(sys, w, env);
      assert sys.ws[w].prog[1..] == [Dismiss(Match(Some(stream), id))];
      RunSwept(EndCancel(sys.s, sys.ws[w].prog[0].id), id, stream, env);
    }
  }

  // ----- the windows -----

  /** Clock and resource table answer well for every loan, at a time not before `t0`. */
  ghost predicate Answering(env: nat -> Env, t0: int) { forall loan: nat :: env(loan).ok && env(loan).now >= t0 }

  /** The reader has no read, or one that is in hand to be cancelled, or one that was complete at
      `t0` and is only kept by samples that are still out. */
  predicate Ending(s: Session, id: ReaderId, t0: int) {
    HasRead(s, id) ==> !ReadOf(s, id).open || (Sweep.Due(ReadOf(s, id), t0) && ReadOf(s, id).samples != [])
  }

  /** From `s` to `t` the read kept ending, and nothing of the reader was sent. */
  ghost predicate Kept(s: Session, t: Session, id: ReaderId, t0: int) {
    (Ending(s, id, t0) ==> Ending(t, id, t0) && forall f :: f in t.forwards && f.data.reader == id ==> f in s.forwards)
  }

  lemma ReleaseKept(s: Session, i: nat, env: nat -> Env, id: ReaderId, t0: int)
    requires i < |s.queue| && Answering(env, t0)
    ensures Kept(s, ReleaseMessage(s, i, env).s, id, t0)
  {
    var j := ForwardIndex(s.forwards, s.queue[i].stream, s.queue[i].sn);
    if j < |s.forwards| && Ending(s, id, t0) {
      var f := s.forwards[j];
      if f.data.reader == id && HasRead(s, id) {
        var r := ReadOf(s, id);
        var k := SampleIndex(r.samples, f.data.buf);
        if k < |r.samples| && r.open {
          Sweep.LastReturnEnds(r, k, env(f.loan), t0);
        }
      }
      var fs := Remove(s.forwards, j);
      assert forall n :: 0 <= n < |fs| ==> fs[n] == s.forwards[if n < j then n else n + 1];
    }
  }

  lemma {:induction false} DrainKept(s: Session, m: Match, env: nat -> Env, id: ReaderId, t0: int)
    requires Answering(env, t0)
    ensures Kept(s, Drain(s, m, env).s, id, t0)
    decreases |s.queue|
  {
    var g := MatchIndex(s.forwards, m);
    if g < |s.forwards| {
      var i := QueuedIndex(s.queue, s.forwards[g].stream, s.forwards[g].sn);
      if i < |s.queue| {
        ReleaseKept(s, i, env, id, t0);
        DrainKept(ReleaseMessage(s, i, env).s, m, env, id, t0);
      }
    }
  }

  lemma PerformKept(s: Session, i: Instr, env: nat -> Env, id: ReaderId, t0: int)
    requires Answering(env, t0) && !Blocking(i) && (i.NewRead? ==> i.id != id)
    ensures var a := Perform(s, i, env); a.Next? || a.Wait? ==> Kept(s, a.s, id, t0)
  {
    if i.Dismiss? {
      DrainKept(s, i.m, env, id, t0);
    }
  }

  /** The program sets up no read for the reader. */
  predicate Sparing(prog: seq<Instr>, id: ReaderId) { forall k :: 0 <= k < |prog| && prog[k].NewRead? ==> prog[k].id != id }

  lemma {:induction false} RunKept(s: Session, prog: seq<Instr>, env: nat -> Env, id: ReaderId, t0: int)
    requires Answering(env, t0) && Sparing(prog, id)
    ensures Kept(s, Run(s, prog, env).s, id, t0) && Sparing(Run(s, prog, env).prog, id)
    decreases |prog|
  {
    if prog != [] && !Blocking(prog[0]) {
      PerformKept(s, prog[0], env, id, t0);
      var a := Perform(s, prog[0], env);
      if a.Next? {
        assert forall k :: 0 <= k < |prog[1..]| ==> prog[1..][k] == prog[k + 1];
        RunKept(a.s, prog[1..], env, id, t0);
      }
    }
  }

  ghost predicate AllSparing(ws: seq<Worker>, id: ReaderId) { forall w :: 0 <= w < |ws| ==> Sparing(ws[w].prog, id) }

  lemma LaunchKept(sys: System, s: Session, who: Who, prog: seq<Instr>, env: nat -> Env, id: ReaderId, t0: int)
    requires Answering(env, t0) && Sparing(prog, id) && AllSparing(sys.ws, id) && Kept(sys.s, s, id, t0)
    ensures var t := Launch(sys, s, who, prog, env).sys; Kept(sys.s, t.s, id, t0) && AllSparing(t.ws, id)
  {
    RunKept(s, prog, env, id, t0);
  }

  lemma ResumeKept(sys: System, w: nat, env: nat -> Env, id: ReaderId, t0: int)
    requires Answering(env, t0) && AllSparing(sys.ws, id) && w < |sys.ws|
    ensures var t := DoResume(sys, w, env).sys; Kept(sys.s, t.s, id, t0) && AllSparing(t.ws, id)
  {
    var prog := sys.ws[w].prog;
    if prog != [] {
      assert forall k :: 0 <= k < |prog[1..]| ==> prog[1..][k] == prog[k + 1];
      RunKept(sys.s, prog[1..], env, id, t0);
      RunKept(CloseRecord(sys.s), prog[1..], env, id, t0);
      if prog[0].Await? {
        RunKept(EndCancel(sys.s, prog[0].id), prog[1..], env, id, t0);
      }
    }
  }

  lemma MessageKept(sys: System, step: Step, env: nat -> Env, id: ReaderId, t0: int)
    requires Answering(env, t0) && AllSparing(sys.ws, id)
    requires step.Attach? || step.Data? || step.Expire? || step.Reply? || step.Release? || step.Sweep?
    ensures var t := Do(sys, step, env).sys; Kept(sys.s, t.s, id, t0) && AllSparing(t.ws, id)
  {
    match step {
      case Release(i) =>
        if i < |sys.s.queue| {
          var r := ReleaseMessage(sys.s, i, env);
          ReleaseKept(sys.s, i, env, id, t0);
          LaunchKept(sys, r.s, Releaser, if r.out.Completed? then [Await(r.out.id)] else [], env, id, t0);
        }
      case Sweep(k) =>
        if HasRead(sys.s, k) {
          LaunchKept(sys, sys.s, Sweeper, [Dismiss(Match(Some(sys.s.readers[k].stream), k))], env, id, t0);
          LaunchKept(sys, sys.s, Sweeper, [Cancel(k)], env, id, t0);
        }
      case _ =>
    }
  }

  lemma LifeCycleKept(sys: System, step: Step, env: nat -> Env, id: ReaderId, t0: int)
    requires Answering(env, t0) && AllSparing(sys.ws, id) && (step.ReadRequest? ==> step.id != id)
    requires step.ReadRequest? || step.DeleteReader? || step.DeleteClient? || step.Timeout? || step.Reset? || step.Cleanup?
    ensures var t := Do(sys, step, env).sys; Kept(sys.s, t.s, id, t0) && AllSparing(t.ws, id)
  {
    match step {
      case ReadRequest(k, stream, spec) =>
        if k in sys.s.readers {
          LaunchKept(sys, Requested(sys.s, k, stream), Requester, ReadProgram(k, stream, spec), env, id, t0);
        }
      case DeleteReader(k) => LaunchKept(sys, sys.s, Deleter, DeleteProgram(k), env, id, t0);
      case DeleteClient => LaunchKept(sys, sys.s.(life := sys.s.life.(disposed := true)), Closer, CloseProgram(), env, id, t0);
      case Timeout => LaunchKept(sys, Struck(sys.s), Timer, (if sys.s.life.disposed then [] else [Dismiss(ALL)]) + [Dispose], env, id, t0);
      case Reset(order) =>
        LaunchKept(sys, sys.s.(life := sys.s.life.(resetting := true)), Resetter, ResetProgram(order), env, id, t0);
      case Cleanup(order) => LaunchKept(sys, sys.s, Cleaner, CleanupProgram(order), env, id, t0);
    }
  }

  lemma StepKept(sys: System, step: Step, env: nat -> Env, id: ReaderId, t0: int)
    requires Answering(env, t0) && AllSparing(sys.ws, id) && (step.ReadRequest? ==> step.id != id)
    ensures var t := Do(sys, step, env).sys; Kept(sys.s, t.s, id, t0) && AllSparing(t.ws, id)
  {
    match step {
      case Resume(w) =>
        if w < |sys.ws| {
          ResumeKept(sys, w, env, id, t0);
        }
      case ReadRequest(_, _, _) => LifeCycleKept(sys, step, env, id, t0);
      case DeleteReader(_) => LifeCycleKept(sys, step, env, id, t0);
      case DeleteClient => LifeCycleKept(sys, step, env, id, t0);
      case Timeout => LifeCycleKept(sys, step, env, id, t0);
      case Reset(_) => LifeCycleKept(sys, step, env, id, t0);
      case Cleanup(_) => LifeCycleKept(sys, step, env, id, t0);
      case _ => MessageKept(sys, step, env, id, t0);
    }
  }

  // ----- the sweeper -----

  ghost predicate NoneOn(s: Session, id: ReaderId, stream: StreamId) {
    forall f :: f in s.forwards && f.data.reader == id ==> f.stream != stream
  }

  /** Sweeper `w` has still to dismiss the reader's requests on the stream, or there are none. */
  ghost predicate Sweeping(sys: System, w: nat, id: ReaderId, stream: StreamId) {
    && w < |sys.ws| && sys.ws[w].who.Sweeper?
    && (sys.s.life.present ==>
          if |sys.ws[w].prog| == 2 then sys.ws[w].prog[1] == Dismiss(Match(Some(stream), id)) else NoneOn(sys.s, id, stream))
  }

  ghost predicate Swinging(sys: System, w: nat, id: ReaderId, stream: StreamId, t0: int) {
    SysInv(sys) && id != EVERY_READER && AllSparing(sys.ws, id) && Ending(sys.s, id, t0) && Sweeping(sys, w, id, stream)
  }

  lemma PresentBefore(sys: System, step: Step, env: nat -> Env)
    requires SysInv(sys)
    ensures Do(sys, step, env).sys.s.life.present ==> sys.s.life.present
  {
    StepGood(sys, step, env);
  }

  /** The dismissal ends, or waits again. */
  lemma RunAgain(s: Session, id: ReaderId, stream: StreamId, env: nat -> Env)
    requires Sound(s) && id != EVERY_READER
    ensures var p := Run(s, [Dismiss(Match(Some(stream), id))], env);
            if p.prog == [] then NoneOn(p.s, id, stream) else |p.prog| == 2 && p.prog[1] == Dismiss(Match(Some(stream), id))
  {
    var m := Match(Some(stream), id);
    assert [Dismiss(m)] + [] == [Dismiss(m)];
    RunDismiss(s, m, [], env);
    RunSwept(s, id, stream, env);
  }

  lemma OwnResume(sys: System, w: nat, id: ReaderId, stream: StreamId, env: nat -> Env, t0: int)
    requires Swinging(sys, w, id, stream, t0) && sys.s.life.present && Answering(env, t0)
    ensures Sweeping(Do(sys, Resume(w), env).sys, w, id, stream)
  {
    var prog := sys.ws[w].prog;
    assert Shape(Sweeper, prog);
    ResumeKept(sys, w, env, id, t0);
    if prog != [] {
      ResumeStart(sys, w);
      WokenIs(sys, w, env);
      if |prog| == 2 {
        assert prog[1..] == [Dismiss(Match(Some(stream), id))];
        RunAgain(EndCancel(sys.s, prog[0].id), id, stream, env);
      } else {
        assert prog[1..] == [];
      }
    }
  }

  lemma OthersKeepWorker(sys: System, step: Step, env: nat -> Env, w: nat)
    requires w < |sys.ws| && step != Resume(w)
    ensures var t := Do(sys, step, env).sys; w < |t.ws| && t.ws[w] == sys.ws[w]
  {
  }

  lemma ResumeKeepsWho(sys: System, w: nat, env: nat -> Env)
    requires w < |sys.ws|
    ensures var t := Do(sys, Resume(w), env).sys; w < |t.ws| && t.ws[w].who == sys.ws[w].who
  {
  }

  lemma SwingingStep(sys: System, step: Step, w: nat, id: ReaderId, stream: StreamId, env: nat -> Env, t0: int)
    requires Swinging(sys, w, id, stream, t0) && Answering(env, t0) && (step.ReadRequest? ==> step.id != id)
    ensures Swinging(Do(sys, step, env).sys, w, id, stream, t0)
  {
    StepGood(sys, step, env);
    StepKept(sys, step, env, id, t0);
    PresentBefore(sys, step, env);
    if step == Resume(w) {
      ResumeKeepsWho(sys, w, env);
      if sys.s.life.present {
        OwnResume(sys, w, id, stream, env, t0);
      }
    } else {
      OthersKeepWorker(sys, step, env, w);
    }
  }

  /** No READ request for the reader. */
  predicate NoRead(steps: seq<Step>, id: ReaderId) { forall k :: 0 <= k < |steps| && steps[k].ReadRequest? ==> steps[k].id != id }

  lemma {:induction false} SwingingRun(sys: System, steps: seq<Step>, w: nat, id: ReaderId, stream: StreamId, env: nat -> Env, t0: int)
    requires Swinging(sys, w, id, stream, t0) && Answering(env, t0) && NoRead(steps, id)
    ensures Swinging(Exec(sys, steps, env), w, id, stream, t0)
    decreases |steps|
  {
    if steps != [] {
      SwingingStep(sys, steps[0], w, id, stream, env, t0);
      SwingingRun(Do(sys, steps[0], env).sys, steps[1..], w, id, stream, env, t0);
    }
  }

  lemma CancelIs(sys: System, id: ReaderId, env: nat -> Env)
    requires sys.s.life.present && HasRead(sys.s, id) && ReadOf(sys.s, id).complete && ReadOf(sys.s, id).samples == []
    ensures var t := Do(sys, Sweep(id), env).sys;
            && t.s.life == sys.s.life && t.s.forwards == sys.s.forwards && Closed(t.s, id)
            && |t.ws| == |sys.ws| + 1 && t.ws[|sys.ws|].who.Sweeper? && |t.ws[|sys.ws|].prog| != 2
  {
    assert [Cancel(id)] + [] == [Cancel(id)];
    RunNext(sys.s, Cancel(id), [], env);
  }

  lemma SweepingStarts(sys: System, id: ReaderId, env: nat -> Env)
    requires SysInv(sys) && sys.s.life.present && HasRead(sys.s, id) && id != EVERY_READER && ReadOf(sys.s, id).complete
    ensures Sweeping(Do(sys, Sweep(id), env).sys, |sys.ws|, id, sys.s.readers[id].stream)
    ensures ReadOf(sys.s, id).samples == [] ==> Closed(Do(sys, Sweep(id), env).sys.s, id)
  {
    if ReadOf(sys.s, id).samples != [] {
      SweepIs(sys, id, env);
      RunAgain(sys.s, id, sys.s.readers[id].stream, env);
    } else {
      NothingOut(sys.s, id);
      CancelIs(sys, id, env);
    }
  }

  lemma SweepStarts(sys: System, id: ReaderId, env: nat -> Env, t0: int)
    requires SysInv(sys) && sys.s.life.present && HasRead(sys.s, id) && id != EVERY_READER && Answering(env, t0) && AllSparing(sys.ws, id)
    requires ReadOf(sys.s, id).complete && IsComplete(ReadOf(sys.s, id), t0)
    ensures Swinging(Do(sys, Sweep(id), env).sys, |sys.ws|, id, sys.s.readers[id].stream, t0)
  {
    StepGood(sys, Sweep(id), env);
    MessageKept(sys, Sweep(id), env, id, t0);
    SweepingStarts(sys, id, env);
  }

  lemma NothingOut(s: Session, id: ReaderId)
    requires Inv(s) && HasRead(s, id) && ReadOf(s, id).samples == []
    ensures forall f :: f in s.forwards ==> f.data.reader != id
  {
    PendingIff(s, id);
  }

  /** A sweep of a read that was complete when it began, in any interleaving without a READ of the
      reader meanwhile and with good answers: once it is through, and ever after, the read is gone,
      or in hand to be cancelled, unless a request of its reader is on another stream. */
  lemma SweepEnds(before: seq<Step>, after: seq<Step>, id: ReaderId, env: nat -> Env, t0: int)
    requires var sys := Exec(START, before, env);
             && sys.s.life.present && HasRead(sys.s, id) && ReadOf(sys.s, id).complete && IsComplete(ReadOf(sys.s, id), t0)
             && AllSparing(sys.ws, id)
    requires Answering(env, t0) && NoRead(after, id)
    ensures var sys := Exec(START, before, env);
            var t := Exec(Do(sys, Sweep(id), env).sys, after, env);
            && |sys.ws| < |t.ws|
            && (t.s.life.present && t.ws[|sys.ws|].prog == [] && HasRead(t.s, id) && ReadOf(t.s, id).open ==>
                  Dismissal.SomeElsewhere(t.s.forwards, id, sys.s.readers[id].stream))
  {
    StartInv();
    ExecInv(START, before, env);
    var sys := Exec(START, before, env);
    var stream := sys.s.readers[id].stream;
    SweepStarts(sys, id, env, t0);
    SwingingRun(Do(sys, Sweep(id), env).sys, after, |sys.ws|, id, stream, env, t0);
    var t := Exec(Do(sys, Sweep(id), env).sys, after, env);
    if HasRead(t.s, id) && ReadOf(t.s, id).open && t.s.life.present && t.ws[|sys.ws|].prog == [] {
      PendingIff(t.s, id);
      var i :| 0 <= i < |t.s.forwards| && t.s.forwards[i].data.reader == id;
      assert t.s.forwards[i] in t.s.forwards;
      assert Dismissal.OnOtherStream(t.s.forwards[i], id, stream);
    }
  }
}
