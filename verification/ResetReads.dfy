/** Which reads a resetter that gets through leaves on its readers: only those that a READ has set up
    behind its back, and that READ was under way when the reset began. */
module ResetReads {
  import opened SessionState
  import opened Loans
  import opened Workers
  import opened WorkerFrames
  import opened WorkerSafety
  import opened WorkerRuns
  import opened WorkerTheorems
  import opened SessionClosing
  import opened SweepRuns
  import opened ResetRuns

  // ----- only a READ sets up a read -----

  lemma {:induction false} DrainUnread(s: Session, m: Match, env: nat -> Env, k: ReaderId)
    ensures HasRead(Drain(s, m, env).s, k) <==> HasRead(s, k)
    decreases |s.queue|
  {
    var g := MatchIndex(s.forwards, m);
    if g < |s.forwards| {
      var i := QueuedIndex(s.queue, s.forwards[g].stream, s.forwards[g].sn);
      if i < |s.queue| {
        DrainUnread(ReleaseMessage(s, i, env).s, m, env, k);
      }
    }
  }

  lemma PerformUnread(s: Session, i: Instr, env: nat -> Env, k: ReaderId)
    requires !Blocking(i) && !HasRead(s, k) && (i.NewRead? ==> i.id != k)
    ensures var a := Perform(s, i, env); a.Next? || a.Wait? ==> !HasRead(a.s, k)
  {
    if i.Dismiss? {
      DrainUnread(s, i.m, env, k);
    }
  }

  lemma {:induction false} RunUnread(s: Session, prog: seq<Instr>, env: nat -> Env, k: ReaderId)
    requires Sparing(prog, k)
    ensures Sparing(Run(s, prog, env).prog, k) && (!HasRead(s, k) ==> !HasRead(Run(s, prog, env).s, k))
    decreases |prog|
  {
    if prog != [] && !Blocking(prog[0]) {
      if !HasRead(s, k) {
        PerformUnread(s, prog[0], env, k);
      }
      var a := Perform(s, prog[0], env);
      if a.Next? {
        assert forall j :: 0 <= j < |prog[1..]| ==> prog[1..][j] == prog[j + 1];
        RunUnread(a.s, prog[1..], env, k);
      }
    }
  }

  /** From `sys` to `t` no worker has come to set up a read on `k`, and none was set up. */
  ghost predicate Unread(s: Session, t: System, k: ReaderId) {
    AllSparing(t.ws, k) && (!HasRead(s, k) ==> !HasRead(t.s, k))
  }

  lemma LaunchUnread(sys: System, s: Session, who: Who, prog: seq<Instr>, env: nat -> Env, k: ReaderId)
    requires Sparing(prog, k) && AllSparing(sys.ws, k) && (!HasRead(sys.s, k) ==> !HasRead(s, k))
    ensures Unread(sys.s, Launch(sys, s, who, prog, env).sys, k)
  {
    RunUnread(s, prog, env, k);
  }

  lemma ResumeUnread(sys: System, w: nat, env: nat -> Env, k: ReaderId)
    requires AllSparing(sys.ws, k) && w < |sys.ws|
    ensures Unread(sys.s, DoResume(sys, w, env).sys, k)
  {
    var prog := sys.ws[w].prog;
    if prog != [] {
      assert forall j :: 0 <= j < |prog[1..]| ==> prog[1..][j] == prog[j + 1];
      RunUnread(sys.s, prog[1..], env, k);
      RunUnread(CloseRecord(sys.s), prog[1..], env, k);
      if prog[0].Await? {
        RunUnread(EndCancel(sys.s, prog[0].id), prog[1..], env, k);
      }
    }
  }

  lemma MessageUnread(sys: System, step: Step, env: nat -> Env, k: ReaderId)
    requires AllSparing(sys.ws, k)
    requires step.Attach? || step.Data? || step.Expire? || step.Reply? || step.Release? || step.Sweep?
    ensures Unread(sys.s, Do(sys, step, env).sys, k)
  {
    match step {
      case Release(i) =>
        if i < |sys.s.queue| {
          var r := ReleaseMessage(sys.s, i, env);
          LaunchUnread(sys, r.s, Releaser, if r.out.Completed? then [Await(r.out.id)] else [], env, k);
        }
      case Sweep(id) =>
        if HasRead(sys.s, id) {
          LaunchUnread(sys, sys.s, Sweeper, [Dismiss(Match(Some(sys.s.readers[id].stream), id))], env, k);
          LaunchUnread(sys, sys.s, Sweeper, [Cancel(id)], env, k);
        }
      case _ =>
    }
  }

  lemma LifeCycleUnread(sys: System, step: Step, env: nat -> Env, k: ReaderId)
    requires AllSparing(sys.ws, k) && (step.ReadRequest? && Hears(sys.s) ==> step.id != k)
    requires step.ReadRequest? || step.DeleteReader? || step.DeleteClient? || step.Timeout? || step.Reset? || step.Cleanup?
    ensures Unread(sys.s, Do(sys, step, env).sys, k)
  {
    match step {
      case ReadRequest(id, stream, spec) =>
        if id in sys.s.readers && Hears(sys.s) {
          LaunchUnread(sys, Requested(sys.s, id, stream), Requester, ReadProgram(id, stream, spec), env, k);
        }
      case DeleteReader(id) => LaunchUnread(sys, sys.s, Deleter, DeleteProgram(id), env, k);
      case DeleteClient => LaunchUnread(sys, sys.s.(life := sys.s.life.(disposed := true)), Closer, CloseProgram(), env, k);
      case Timeout => LaunchUnread(sys, Struck(sys.s), Timer, (if sys.s.life.disposed then [] else [Dismiss(ALL)]) + [Dispose], env, k);
      case Reset(order) =>
        LaunchUnread(sys, sys.s.(life := sys.s.life.(resetting := true)), Resetter, ResetProgram(order), env, k);
      case Cleanup(order) => LaunchUnread(sys, sys.s, Cleaner, CleanupProgram(order), env, k);
    }
  }

  lemma StepUnread(sys: System, step: Step, env: nat -> Env, k: ReaderId)
    requires AllSparing(sys.ws, k) && (step.ReadRequest? && Hears(sys.s) ==> step.id != k)
    ensures Unread(sys.s, Do(sys, step, env).sys, k)
  {
    match step {
      case Resume(w) =>
        if w < |sys.ws| {
          ResumeUnread(sys, w, env, k);
        }
      case ReadRequest(_, _, _) => LifeCycleUnread(sys, step, env, k);
      case DeleteReader(_) => LifeCycleUnread(sys, step, env, k);
      case DeleteClient => LifeCycleUnread(sys, step, env, k);
      case Timeout => LifeCycleUnread(sys, step, env, k);
      case Reset(_) => LifeCycleUnread(sys, step, env, k);
      case Cleanup(_) => LifeCycleUnread(sys, step, env, k);
      case _ => MessageUnread(sys, step, env, k);
    }
  }

  // ----- a reader of the order -----

  /** The reader is still to be cancelled, is being cancelled, or has no read. */
  predicate ToClear(s: Session, prog: seq<Instr>, k: ReaderId) {
    prog != [] ==> Cancel(k) in prog || prog[0] == Await(k) || !HasRead(s, k)
  }

  /** A resetter's run leaves no read on `k` if it gets through, and `k` to be cleared if not. */
  predicate Clears(p: Progress, k: ReaderId) {
    (p.prog == [] && !p.s.life.resetting ==> !HasRead(p.s, k)) && ToClear(p.s, p.prog, k)
  }

  lemma TailClears(s: Session, order: seq<ReaderId>, env: nat -> Env, k: ReaderId)
    requires Sound(s) && s.forwards == [] && s.life.resetting && (k in order || !HasRead(s, k))
    ensures Clears(Run(s, Tail(order), env), k)
  {
    RunTail(s, order, env);
    FirstIn(s, order);
    var first := FirstReading(s, order);
    if first.Some? && !Closed(s, first.value) {
      var rest := Beyond(s, order);
      TailCancels(rest, k);
      var prog := [Await(first.value)] + Tail(rest);
      assert Cancel(k) in Tail(rest) ==> Cancel(k) in prog;
      assert HasRead(s, k) ==> k in rest || first == Some(k);
    }
  }

  lemma WholeClears(s: Session, order: seq<ReaderId>, env: nat -> Env, k: ReaderId)
    requires Sound(s) && s.life.resetting && (k in order || !HasRead(s, k))
    ensures Clears(Run(s, ResetProgram(order), env), k)
  {
    RunWhole(s, order, env);
    DrainUnread(s, ALL, env, k);
    var d := Drain(s, ALL, env);
    if d.out.Done? {
      TailClears(d.s.(queue := []), order, env, k);
    } else {
      TailCancels(order, k);
      var prog := [Await(d.out.id)] + ResetProgram(order);
      assert Cancel(k) in ResetProgram(order) ==> Cancel(k) in prog;
    }
  }

  /** Resetter `w` leaves no read on reader `k` when it gets through, as long as it is at work. */
  ghost predicate Clearing(sys: System, w: nat, k: ReaderId) {
    && SysInv(sys) && w < |sys.ws| && sys.ws[w].who.Resetter? && AtReset(sys.ws[w].prog)
    && (sys.ws[w].prog != [] ==> AllSparing(sys.ws, k) && ToClear(sys.s, sys.ws[w].prog, k))
  }

  lemma OwnResumeClears(sys: System, w: nat, env: nat -> Env, k: ReaderId)
    requires Clearing(sys, w, k) && sys.ws[w].prog != [] && sys.s.life.present
    ensures Clears(Woken(sys, w, env), k)
  {
    ResetAwakes(sys, w);
    var prog := sys.ws[w].prog;
    var s := EndCancel(sys.s, prog[0].id);
    var rest :| prog[1..] == ResetProgram(rest) || (prog[1..] == Tail(rest) && s.forwards == []);
    TailCancels(rest, k);
    assert Cancel(k) in prog ==> Cancel(k) in prog[1..];
    assert !HasRead(sys.s, k) ==> !HasRead(s, k);
    if prog[1..] == ResetProgram(rest) {
      WholeClears(s, rest, env, k);
    } else {
      TailClears(s, rest, env, k);
    }
  }

  /** While the resetter is at work nobody begins a READ. */
  lemma NotHeard(sys: System, w: nat)
    requires SysInv(sys) && w < |sys.ws| && sys.ws[w].who.Resetter? && sys.ws[w].prog != []
    ensures !Hears(sys.s)
  {
    assert WorkerLife(sys.ws[w], sys.s.life, sys.s.forwards == []);
  }

  lemma ClearingStep(sys: System, step: Step, w: nat, env: nat -> Env, k: ReaderId)
    requires Clearing(sys, w, k)
    ensures Clearing(Do(sys, step, env).sys, w, k)
  {
    var t := Do(sys, step, env).sys;
    StepGood(sys, step, env);
    if step == Resume(w) {
      ResumeKeepsWho(sys, w, env);
      if sys.ws[w].prog != [] {
        StepUnread(sys, step, env, k);
        if sys.s.life.present {
          ResetResumed(sys, w, env);
          OwnResumeClears(sys, w, env, k);
        }
      }
    } else {
      OthersKeepWorker(sys, step, env, w);
      if sys.ws[w].prog != [] {
        NotHeard(sys, w);
        StepUnread(sys, step, env, k);
      }
    }
  }

  lemma {:induction false} ClearingRun(sys: System, steps: seq<Step>, w: nat, env: nat -> Env, k: ReaderId)
    requires Clearing(sys, w, k)
    ensures Clearing(Exec(sys, steps, env), w, k)
    decreases |steps|
  {
    if steps != [] {
      ClearingStep(sys, steps[0], w, env, k);
      ClearingRun(Do(sys, steps[0], env).sys, steps[1..], w, env, k);
    }
  }

  lemma ResetClearing(sys: System, order: seq<ReaderId>, env: nat -> Env, k: ReaderId)
    requires SysInv(sys) && Live(sys.s) && k in order && AllSparing(sys.ws, k)
    ensures var t := Do(sys, Reset(order), env).sys;
            && Clearing(t, |sys.ws|, k)
            && (t.ws[|sys.ws|].prog == [] && !t.s.life.resetting ==> !HasRead(t.s, k))
  {
    StepGood(sys, Reset(order), env);
    StepUnread(sys, Reset(order), env, k);
    ResetLaunched(sys, order, env);
    WholeClears(sys.s.(life := sys.s.life.(resetting := true)), order, env, k);
  }

  /** A resetter that gets through, at once or after any number of waits with anybody in between,
      has then left no read on a reader of its order, unless a READ of that reader was under way
      when the reset began. */
  lemma ResetClears(before: seq<Step>, order: seq<ReaderId>, between: seq<Step>, env: nat -> Env, k: ReaderId)
    requires var sys := Exec(START, before, env); Live(sys.s) && k in order && AllSparing(sys.ws, k)
    ensures var sys := Exec(START, before, env);
            var w := |sys.ws|;
            var t := Do(sys, Reset(order), env).sys;
            var u := Exec(t, between, env);
            && w < |t.ws| && (t.ws[w].prog == [] && !t.s.life.resetting ==> !HasRead(t.s, k))
            && w < |u.ws|
            && (u.s.life.present && u.ws[w].prog != [] ==>
                  var v := Do(u, Resume(w), env).sys;
                  w < |v.ws| && (v.ws[w].prog == [] && !v.s.life.resetting ==> !HasRead(v.s, k)))
  {
    StartInv();
    ExecInv(START, before, env);
    var sys := Exec(START, before, env);
    ResetClearing(sys, order, env, k);
    var t := Do(sys, Reset(order), env).sys;
    ClearingRun(t, between, |sys.ws|, env, k);
    var u := Exec(t, between, env);
    if u.s.life.present && u.ws[|sys.ws|].prog != [] {
      ResetResumed(u, |sys.ws|, env);
      OwnResumeClears(u, |sys.ws|, env, k);
    }
  }

  // ----- exactly when, and with what reads left -----

  /** The run makes the session active again. */
  predicate Through(p: Progress) { p.prog == [] && !p.s.life.resetting }

  /** No dismissal has to wait, and no reader still to be cancelled has a read. */
  ghost predicate Clear(s: Session, prog: seq<Instr>, env: nat -> Env) {
    !Drain(s, ALL, env).out.Blocked? && forall k :: Cancel(k) in prog ==> !HasRead(s, k)
  }

  ghost predicate SameReads(s: Session, t: Session) { forall k :: HasRead(t, k) <==> HasRead(s, k) }

  lemma TailThrough(s: Session, order: seq<ReaderId>, env: nat -> Env)
    requires Sound(s) && s.forwards == [] && s.life.resetting
    ensures var p := Run(s, Tail(order), env);
            (Through(p) <==> forall k :: k in order ==> !HasRead(s, k)) && (p.prog == [] ==> SameReads(s, p.s))
  {
    RunTail(s, order, env);
    FirstIn(s, order);
  }

  lemma RunThrough(s: Session, prog: seq<Instr>, rest: seq<ReaderId>, env: nat -> Env)
    requires Sound(s) && s.life.resetting && (prog == ResetProgram(rest) || (prog == Tail(rest) && s.forwards == []))
    ensures var p := Run(s, prog, env); (Through(p) <==> Clear(s, prog, env)) && (p.prog == [] ==> SameReads(s, p.s))
  {
    var d := Drain(s, ALL, env);
    forall k: ReaderId
      ensures (Cancel(k) in prog <==> k in rest) && (HasRead(d.s, k) <==> HasRead(s, k))
    {
      TailCancels(rest, k);
      DrainUnread(s, ALL, env, k);
    }
    if prog == ResetProgram(rest) {
      RunWhole(s, rest, env);
      if d.out.Done? {
        TailThrough(d.s.(queue := []), rest, env);
      }
    } else {
      TailThrough(s, rest, env);
    }
  }

  /** A reset gets through at once exactly if its dismissal does not wait and no reader of the order
      has a read. */
  lemma AtOnceExactly(steps: seq<Step>, order: seq<ReaderId>, env: nat -> Env)
    requires Live(Exec(START, steps, env).s)
    ensures var sys := Exec(START, steps, env);
            var t := Do(sys, Reset(order), env).sys;
            |t.ws| == |sys.ws| + 1
            && (t.ws[|sys.ws|].prog == [] && !t.s.life.resetting
                <==> !Drain(sys.s.(life := sys.s.life.(resetting := true)), ALL, env).out.Blocked?
                     && forall k :: k in order ==> !HasRead(sys.s, k))
  {
    StartInv();
    ExecInv(START, steps, env);
    var sys := Exec(START, steps, env);
    var s := sys.s.(life := sys.s.life.(resetting := true));
    ResetLaunched(sys, order, env);
    RunThrough(s, ResetProgram(order), order, env);
    forall k: ReaderId
      ensures (Cancel(k) in ResetProgram(order) <==> k in order) && (HasRead(s, k) <==> HasRead(sys.s, k))
    {
      TailCancels(order, k);
    }
  }

  lemma AfterAwait(s: Session, prog: seq<Instr>, k: ReaderId)
    requires prog != [] && prog[0].Await?
    ensures HasRead(EndCancel(s, prog[0].id), k) <==> HasRead(s, k) && prog[0] != Await(k)
    ensures Cancel(k) in prog <==> Cancel(k) in prog[1..]
  {
    assert prog == [prog[0]] + prog[1..];
  }

  lemma WakesThrough(sys: System, w: nat, env: nat -> Env)
    requires SysInv(sys) && w < |sys.ws| && sys.ws[w].who.Resetter? && sys.ws[w].prog != [] && AtReset(sys.ws[w].prog)
    requires sys.s.life.present
    ensures var p := Woken(sys, w, env);
            var s := EndCancel(sys.s, sys.ws[w].prog[0].id);
            (Through(p) <==> Clear(s, sys.ws[w].prog[1..], env)) && (p.prog == [] ==> SameReads(s, p.s))
  {
    var prog := sys.ws[w].prog;
    var s := EndCancel(sys.s, prog[0].id);
    ResetAwakes(sys, w);
    var rest :| prog[1..] == ResetProgram(rest) || (prog[1..] == Tail(rest) && s.forwards == []);
    RunThrough(s, prog[1..], rest, env);
  }

  /** A resetter that wakes up gets through exactly if nothing has to be waited for any more and
      none of the readers still to be cancelled has a read; and if it ends there, the reads are
      those that there were but for the one it awaited. */
  lemma ThroughExactly(steps: seq<Step>, w: nat, env: nat -> Env)
    requires var sys := Exec(START, steps, env);
             sys.s.life.present && w < |sys.ws| && sys.ws[w].who.Resetter? && sys.ws[w].prog != []
    ensures var sys := Exec(START, steps, env);
            var t := Do(sys, Resume(w), env).sys;
            && sys.ws[w].prog[0].Await? && w < |t.ws|
            && (t.ws[w].prog == [] && !t.s.life.resetting
                <==> Clear(EndCancel(sys.s, sys.ws[w].prog[0].id), sys.ws[w].prog, env))
            && (t.ws[w].prog == [] ==>
                  forall k :: HasRead(t.s, k) <==> HasRead(sys.s, k) && sys.ws[w].prog[0] != Await(k))
  {
    ResettingExactly(steps, env);
    var sys := Exec(START, steps, env);
    ResetResumed(sys, w, env);
    WakesThrough(sys, w, env);
    forall k: ReaderId
      ensures HasRead(EndCancel(sys.s, sys.ws[w].prog[0].id), k) <==> HasRead(sys.s, k) && sys.ws[w].prog[0] != Await(k)
      ensures Cancel(k) in sys.ws[w].prog <==> Cancel(k) in sys.ws[w].prog[1..]
    {
      AfterAwait(sys.s, sys.ws[w].prog, k);
    }
  }

  // ----- what else a reset leaves -----

  lemma PerformQueue(s: Session, i: Instr, env: nat -> Env)
    requires !Blocking(i) && s.queue == []
    ensures var a := Perform(s, i, env); a.Next? || a.Wait? ==> a.s.queue == []
  {
  }

  lemma {:induction false} RunQueue(s: Session, prog: seq<Instr>, env: nat -> Env)
    requires s.queue == []
    ensures Run(s, prog, env).s.queue == []
    decreases |prog|
  {
    if prog != [] && !Blocking(prog[0]) {
      PerformQueue(s, prog[0], env);
      var a := Perform(s, prog[0], env);
      if a.Next? {
        RunQueue(a.s, prog[1..], env);
      }
    }
  }

  lemma ResumeQueue(sys: System, w: nat, env: nat -> Env)
    requires w < |sys.ws| && sys.s.queue == []
    ensures DoResume(sys, w, env).sys.s.queue == []
  {
    var prog := sys.ws[w].prog;
    if prog != [] {
      RunQueue(sys.s, prog[1..], env);
      RunQueue(CloseRecord(sys.s), prog[1..], env);
      if prog[0].Await? {
        RunQueue(EndCancel(sys.s, prog[0].id), prog[1..], env);
      }
    }
  }

  /** Nothing is sent on a session that is not active. */
  lemma StepQueue(sys: System, step: Step, env: nat -> Env)
    requires sys.s.queue == [] && !Live(sys.s)
    ensures Do(sys, step, env).sys.s.queue == []
  {
    match step {
      case Resume(w) =>
        if w < |sys.ws| {
          ResumeQueue(sys, w, env);
        }
      case Sweep(id) =>
        if HasRead(sys.s, id) {
          RunQueue(sys.s, [Dismiss(Match(Some(sys.s.readers[id].stream), id))], env);
          RunQueue(sys.s, [Cancel(id)], env);
        }
      case Cleanup(order) => RunQueue(sys.s, CleanupProgram(order), env);
      case _ =>
    }
  }

  /** A resetter that has its dismissal behind it finds the send queue empty. */
  predicate TailQueue(s: Session, prog: seq<Instr>) {
    |prog| > 1 && prog[1] != Dismiss(ALL) ==> s.queue == []
  }

  ghost predicate AllQuiet(sys: System) {
    forall w :: 0 <= w < |sys.ws| && sys.ws[w].who.Resetter? ==> TailQueue(sys.s, sys.ws[w].prog)
  }

  /** The end of a reset: nothing to be forwarded, nothing to be sent. */
  predicate Emptied(p: Progress) {
    TailQueue(p.s, p.prog) && (p.prog == [] ==> p.s.queue == [] && p.s.forwards == [])
  }

  lemma TailEmptied(s: Session, rest: seq<ReaderId>, env: nat -> Env)
    requires Sound(s) && s.forwards == [] && s.queue == []
    ensures Emptied(Run(s, Tail(rest), env))
  {
    RunTail(s, rest, env);
  }

  lemma WholeEmptied(s: Session, rest: seq<ReaderId>, env: nat -> Env)
    requires Sound(s)
    ensures Emptied(Run(s, ResetProgram(rest), env))
  {
    RunWhole(s, rest, env);
    var d := Drain(s, ALL, env);
    if d.out.Done? {
      TailEmptied(d.s.(queue := []), rest, env);
    } else {
      WholeIs(rest);
      assert ([Await(d.out.id)] + ResetProgram(rest))[1] == Dismiss(ALL);
    }
  }

  lemma WokenEmptied(sys: System, w: nat, env: nat -> Env)
    requires SysInv(sys) && w < |sys.ws| && sys.ws[w].who.Resetter? && sys.ws[w].prog != [] && AtReset(sys.ws[w].prog)
    requires sys.s.life.present && TailQueue(sys.s, sys.ws[w].prog)
    ensures Emptied(Woken(sys, w, env))
  {
    ResetAwakes(sys, w);
    var prog := sys.ws[w].prog;
    var s := EndCancel(sys.s, prog[0].id);
    var rest :| prog[1..] == ResetProgram(rest) || (prog[1..] == Tail(rest) && s.forwards == []);
    if prog[1..] == ResetProgram(rest) {
      WholeEmptied(s, rest, env);
    } else {
      assert prog[1] == Tail(rest)[0];
      assert rest != [] ==> Tail(rest)[0] == Cancel(rest[0]);
      TailEmptied(s, rest, env);
    }
  }

  lemma QuietOther(sys: System, step: Step, w: nat, env: nat -> Env)
    requires SysInv(sys) && AllQuiet(sys) && w < |sys.ws| && sys.ws[w].who.Resetter? && step != Resume(w)
    ensures var t := Do(sys, step, env).sys; w < |t.ws| && TailQueue(t.s, t.ws[w].prog)
  {
    OthersKeepWorker(sys, step, env, w);
    if sys.ws[w].prog != [] && sys.s.queue == [] {
      NotLive(sys, w);
      StepQueue(sys, step, env);
    }
  }

  lemma NotLive(sys: System, w: nat)
    requires SysInv(sys) && w < |sys.ws| && sys.ws[w].who.Resetter? && sys.ws[w].prog != []
    ensures !Live(sys.s)
  {
    assert WorkerLife(sys.ws[w], sys.s.life, sys.s.forwards == []);
  }

  lemma QuietStep(sys: System, step: Step, env: nat -> Env)
    requires SysInv(sys) && AllResets(sys.ws) && AllQuiet(sys)
    ensures AllQuiet(Do(sys, step, env).sys)
  {
    var t := Do(sys, step, env).sys;
    NewWorker(sys, step, env);
    forall w: nat | w < |t.ws| && t.ws[w].who.Resetter?
      ensures TailQueue(t.s, t.ws[w].prog)
    {
      if w == |sys.ws| {
        assert step.Reset?;
        ResetLaunched(sys, step.order, env);
        WholeEmptied(sys.s.(life := sys.s.life.(resetting := true)), step.order, env);
      } else if step == Resume(w) {
        ResumeKeepsWho(sys, w, env);
        if sys.ws[w].prog != [] && sys.s.life.present {
          ResetResumed(sys, w, env);
          WokenEmptied(sys, w, env);
        }
      } else {
        SameWho(sys, step, w, env);
        QuietOther(sys, step, w, env);
      }
    }
  }

  lemma SameWho(sys: System, step: Step, w: nat, env: nat -> Env)
    requires w < |sys.ws|
    ensures var t := Do(sys, step, env).sys; w < |t.ws| && t.ws[w].who == sys.ws[w].who
  {
  }

  lemma {:induction false} ExecQuiet(sys: System, steps: seq<Step>, env: nat -> Env)
    requires SysInv(sys) && AllResets(sys.ws) && AllQuiet(sys)
    ensures AllQuiet(Exec(sys, steps, env))
    decreases |steps|
  {
    if steps != [] {
      StepGood(sys, steps[0], env);
      ResetsStep(sys, steps[0], env);
      QuietStep(sys, steps[0], env);
      ExecQuiet(Do(sys, steps[0], env).sys, steps[1..], env);
    }
  }

  /** In every interleaving a resetter that comes to its end, by getting through or by giving up,
      has then left no forward request and no message in the send queue. */
  lemma ResetEmpties(steps: seq<Step>, step: Step, env: nat -> Env)
    requires var sys := Exec(START, steps, env); sys.s.life.present && ByResetter(sys, step)
    ensures var sys := Exec(START, steps, env);
            var t := Do(sys, step, env).sys;
            var w := if step.Reset? then |sys.ws| else step.w;
            w < |t.ws| && (t.ws[w].prog == [] ==> t.s.queue == [] && t.s.forwards == [])
  {
    ResettingExactly(steps, env);
    StartInv();
    ExecQuiet(START, steps, env);
    var sys := Exec(START, steps, env);
    if step.Reset? {
      ResetLaunched(sys, step.order, env);
      WholeEmptied(sys.s.(life := sys.s.life.(resetting := true)), step.order, env);
    } else {
      ResetResumed(sys, step.w, env);
      WokenEmptied(sys, step.w, env);
    }
  }
}
