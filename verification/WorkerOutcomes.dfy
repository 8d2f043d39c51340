/** What the other workers come to, in any interleaving: the release of a message, the deletion of
    a reader, and the closing of a session by closer, timer and cleaner. */
module WorkerOutcomes {
  import opened SessionState
  import opened Loans
  import opened Workers
  import opened WorkerFrames
  import opened WorkerSafety
  import opened WorkerRuns
  import opened WorkerTheorems
  import opened SweepRuns
  import ReadLoop
  import SessionReads

  // ----- a message enters the queue -----

  /** The stream's messages in the queue, by number. */
  function OnStream(queue: seq<Message>, stream: StreamId): seq<nat> {
    if queue == [] then [] else (if queue[0].stream == stream then [queue[0].sn] else []) + OnStream(queue[1..], stream)
  }

  lemma {:induction false} OnStreamSnoc(queue: seq<Message>, m: Message, stream: StreamId)
    ensures OnStream(queue + [m], stream) == OnStream(queue, stream) + (if m.stream == stream then [m.sn] else [])
  {
    if queue == [] {
      assert [m][1..] == [] && [] + [m] == [m];
    } else {
      assert (queue + [m])[1..] == queue[1..] + [m];
      OnStreamSnoc(queue[1..], m, stream);
    }
  }

  /** Any other message for a reliable stream of an active session is queued behind those of its
      stream, if its number is above theirs, and changes nothing else. */
  lemma ReplyComesTo(sys: System, stream: StreamId, sn: nat, env: nat -> Env, other: StreamId)
    requires Live(sys.s) && Reliable(stream) && NextOnStream(sys.s.queue, stream, sn)
    ensures var t := Do(sys, Reply(stream, sn), env).sys;
            && t == sys.(s := sys.s.(queue := t.s.queue)) && |t.s.queue| == |sys.s.queue| + 1
            && OnStream(t.s.queue, stream) == OnStream(sys.s.queue, stream) + [sn]
            && (other != stream ==> OnStream(t.s.queue, other) == OnStream(sys.s.queue, other))
            && DataOnly(t.s.queue) == DataOnly(sys.s.queue)
  {
    OnStreamSnoc(sys.s.queue, Message(stream, sn, false), stream);
    OnStreamSnoc(sys.s.queue, Message(stream, sn, false), other);
    DataConcat(sys.s.queue, [Message(stream, sn, false)]);
    assert DataOnly([Message(stream, sn, false)]) == [];
  }

  /** A sample of a reader is offered to the session exactly while the session is active and the
      reader's read is open and not complete; for the reader that is an offer to it alone. */
  lemma DataComesTo(sys: System, id: ReaderId, sn: int, now: int, d: Delivery, env: nat -> Env)
    requires HasRead(sys.s, id) && (d.Sent? ==> NextOnStream(sys.s.queue, sys.s.readers[id].stream, d.sn))
    ensures var t := Do(sys, Data(id, sn, now, d), env).sys;
            && t.ws == sys.ws
            && t.s.readers == sys.s.readers[id :=
                 if Live(sys.s) && ReadOf(sys.s, id).open && !ReadOf(sys.s, id).complete
                 then ReadLoop.Offer(sys.s.readers[id], id, sn, now, SessionReads.TakingOf(sys.s, id, d)).a
                 else sys.s.readers[id]]
  {
    SessionReads.ProcessIsOffer(sys.s, id, sn, now, d);
    assert sys.s.readers == sys.s.readers[id := sys.s.readers[id]];
  }

  // ----- a message leaves the queue -----

  /** The release of message `i` gives back the loan of the forward request of its rank among the
      data messages, and of no other; any other message gives back none. */
  ghost predicate Released(s: Session, i: nat, t: Session)
    requires i < |s.queue|
  {
    && t.queue == Remove(s.queue, i)
    && if s.queue[i].data then
         var j := |DataOnly(s.queue[..i])|;
         && j < |s.forwards| && SameMessage(s.forwards[j], s.queue[i])
         && t.forwards == Remove(s.forwards, j) && t.returned == s.returned + [s.forwards[j].loan]
         && t.pool == s.pool + [s.forwards[j].data.buf]
       else t == s.(queue := t.queue)
  }

  lemma DropReleases(s: Session, j: nat, env: nat -> Env)
    requires PendingExact(s) && BuffersApart(s) && j < |s.forwards|
    ensures var t := DropForward(s, j, env).s;
            && t.queue == s.queue && t.forwards == Remove(s.forwards, j)
            && t.returned == s.returned + [s.forwards[j].loan] && t.pool == s.pool + [s.forwards[j].data.buf]
  {
    var _ := DropForwardEffect(s, j, env);
  }

  lemma ReleaseReleases(s: Session, i: nat, env: nat -> Env)
    requires Inv(s) && i < |s.queue|
    ensures Released(s, i, ReleaseMessage(s, i, env).s)
  {
    ReleaseIsDrop(s, i, env);
    if s.queue[i].data {
      DropReleases(s.(queue := Remove(s.queue, i)), |DataOnly(s.queue[..i])|, env);
    }
  }

  lemma ReleaseIs(sys: System, i: nat, env: nat -> Env)
    requires Live(sys.s) && i < |sys.s.queue|
    ensures var r := ReleaseMessage(sys.s, i, env);
            Do(sys, Step.Release(i), env).sys == System(r.s, sys.ws + [Worker(Releaser, if r.out.Completed? then [Await(r.out.id)] else [])])
  {
    var r := ReleaseMessage(sys.s, i, env);
    LaunchIs(sys, r.s, if r.out.Completed? then [Await(r.out.id)] else [], env);
  }

  /** In any interleaving: a message that leaves the queue of an active session takes its own
      forward request with it, and a read that this completes is awaited by the releaser. */
  lemma ReleaseComesTo(steps: seq<Step>, i: nat, env: nat -> Env)
    requires var sys := Exec(START, steps, env); Live(sys.s) && i < |sys.s.queue|
    ensures var sys := Exec(START, steps, env);
            var t := Do(sys, Step.Release(i), env).sys;
            && Released(sys.s, i, t.s) && |t.ws| == |sys.ws| + 1
            && forall k :: Closed(t.s, k) && !Closed(sys.s, k) ==> t.ws[|sys.ws|].prog == [Await(k)]
  {
    LoansAlwaysExact(steps, env);
    var sys := Exec(START, steps, env);
    ReleaseIs(sys, i, env);
    ReleaseReleases(sys.s, i, env);
    forall k | Closed(ReleaseMessage(sys.s, i, env).s, k) && !Closed(sys.s, k)
      ensures ReleaseMessage(sys.s, i, env).out == Completed(k)
    {
      ReleaseCloses(sys.s, i, env, k);
    }
  }

  lemma ReleaseCloses(s: Session, i: nat, env: nat -> Env, k: ReaderId)
    requires i < |s.queue| && Closed(ReleaseMessage(s, i, env).s, k) && !Closed(s, k)
    ensures ReleaseMessage(s, i, env).out == Completed(k)
  {
  }

  // ----- the deletion of a reader -----

  predicate AtDelete(prog: seq<Instr>, id: ReaderId) {
    prog != [] ==> prog[0].Await? && (prog[1..] == [Detach(id)] || prog[1..] == DeleteProgram(id))
  }

  /** The reader is detached, or its read is in another worker's hands. */
  ghost predicate Deleted(p: Progress, id: ReaderId) {
    AtDelete(p.prog, id) && (p.prog == [] ==> p.refused.Some? || id !in p.s.readers || Closed(p.s, id))
  }

  lemma DetachDeletes(s: Session, id: ReaderId, env: nat -> Env)
    ensures Deleted(Run(s, [Detach(id)], env), id)
  {
    assert [Detach(id)] == [Detach(id)] + [];
    RunNext(s, Detach(id), [], env);
    assert [Await(id)] + [Detach(id)] == [Await(id), Detach(id)] && [Await(id), Detach(id)][1..] == [Detach(id)];
  }

  lemma CancelDeletes(s: Session, id: ReaderId, env: nat -> Env)
    ensures Deleted(Run(s, [Cancel(id), Detach(id)], env), id)
  {
    assert [Cancel(id), Detach(id)] == [Cancel(id)] + [Detach(id)];
    RunNext(s, Cancel(id), [Detach(id)], env);
    DetachDeletes(s, id, env);
    assert ([Await(id)] + [Detach(id)])[1..] == [Detach(id)];
  }

  lemma WholeDeletes(s: Session, id: ReaderId, env: nat -> Env)
    ensures Deleted(Run(s, DeleteProgram(id), env), id)
  {
    var m, rest := Match(None, id), [Cancel(id), Detach(id)];
    assert DeleteProgram(id) == [Dismiss(m)] + rest;
    RunNext(s, Dismiss(m), rest, env);
    var d := Drain(s, m, env);
    CancelDeletes(d.s, id, env);
    if d.out.Blocked? {
      assert ([Await(d.out.id)] + DeleteProgram(id))[1..] == DeleteProgram(id);
    }
  }

  ghost predicate Deleting(sys: System, w: nat, id: ReaderId) {
    SysInv(sys) && w < |sys.ws| && sys.ws[w].who.Deleter? && AtDelete(sys.ws[w].prog, id)
  }

  lemma WokenDeletes(sys: System, w: nat, id: ReaderId, env: nat -> Env)
    requires Deleting(sys, w, id) && sys.ws[w].prog != [] && sys.s.life.present
    ensures Deleted(Woken(sys, w, env), id)
  {
    var s := EndCancel(sys.s, sys.ws[w].prog[0].id);
    if sys.ws[w].prog[1..] == [Detach(id)] {
      DetachDeletes(s, id, env);
    } else {
      WholeDeletes(s, id, env);
    }
  }

  lemma DeletingStep(sys: System, step: Step, w: nat, id: ReaderId, env: nat -> Env)
    requires Deleting(sys, w, id)
    ensures Deleting(Do(sys, step, env).sys, w, id)
  {
    StepGood(sys, step, env);
    if step == Resume(w) {
      ResumeKeepsWho(sys, w, env);
      if sys.ws[w].prog != [] && sys.s.life.present {
        WokenDeletes(sys, w, id, env);
        WokenIs(sys, w, env);
      }
    } else {
      OthersKeepWorker(sys, step, env, w);
    }
  }

  lemma {:induction false} DeletingRun(sys: System, steps: seq<Step>, w: nat, id: ReaderId, env: nat -> Env)
    requires Deleting(sys, w, id)
    ensures Deleting(Exec(sys, steps, env), w, id)
    decreases |steps|
  {
    if steps != [] {
      DeletingStep(sys, steps[0], w, id, env);
      DeletingRun(Do(sys, steps[0], env).sys, steps[1..], w, id, env);
    }
  }

  lemma DeleteIs(sys: System, id: ReaderId, env: nat -> Env)
    requires Hears(sys.s) && id in sys.s.readers
    ensures var p := Run(sys.s, DeleteProgram(id), env);
            Do(sys, DeleteReader(id), env) == Stepped(System(p.s, sys.ws + [Worker(Deleter, p.prog)]), Refused(Deleter, p.refused))
  {
  }

  lemma DeleteStarts(sys: System, id: ReaderId, env: nat -> Env)
    requires SysInv(sys) && Hears(sys.s) && id in sys.s.readers
    ensures var t := Do(sys, DeleteReader(id), env);
            && Deleting(t.sys, |sys.ws|, id)
            && (t.sys.ws[|sys.ws|].prog == [] ==> id !in t.sys.s.readers || Closed(t.sys.s, id))
  {
    StepGood(sys, DeleteReader(id), env);
    DeleteIs(sys, id, env);
    WholeDeletes(sys.s, id, env);
  }

  /** The deletion of a reader that comes to its end, at once or after any number of waits with
      anybody in between, leaves the reader detached, or its read in another worker's hands. */
  lemma DeleteComesTo(before: seq<Step>, id: ReaderId, between: seq<Step>, env: nat -> Env)
    requires var sys := Exec(START, before, env); Hears(sys.s) && id in sys.s.readers
    ensures var sys := Exec(START, before, env);
            var w := |sys.ws|;
            var t := Do(sys, DeleteReader(id), env).sys;
            var u := Exec(t, between, env);
            && w < |t.ws| && w < |u.ws|
            && (t.ws[w].prog == [] ==> id !in t.s.readers || Closed(t.s, id))
            && (u.s.life.present && u.ws[w].prog != [] ==>
                  var v := Do(u, Resume(w), env).sys;
                  w < |v.ws| && (v.ws[w].prog == [] ==> id !in v.s.readers || Closed(v.s, id)))
  {
    StartInv();
    ExecInv(START, before, env);
    var sys := Exec(START, before, env);
    DeleteStarts(sys, id, env);
    var t := Do(sys, DeleteReader(id), env).sys;
    DeletingRun(t, between, |sys.ws|, id, env);
    var u := Exec(t, between, env);
    if u.s.life.present && u.ws[|sys.ws|].prog != [] {
      WokenDeletes(u, |sys.ws|, id, env);
      WokenIs(u, |sys.ws|, env);
      StepGood(u, Resume(|sys.ws|), env);
    }
  }

  // ----- the end of a session -----

  lemma LeaveCloses(sys: System, w: nat, env: nat -> Env)
    requires w < |sys.ws| && sys.s.life.present && sys.ws[w].prog == [Leave, TryClose, AwaitCleanup]
    ensures var t := Do(sys, Resume(w), env).sys;
            && w < |t.ws|
            && t.s == (if Live(sys.s) then sys.s.(life := sys.s.life.(deleted := true)) else sys.s)
            && t.ws[w].prog == (if Live(sys.s) then [AwaitCleanup] else [])
  {
    RunTryClose(sys.s, env);
    ReenterIs(sys, w, env);
    ClosesExactly(sys.s, env);
    assert sys.ws[w].prog[1..] == [TryClose, AwaitCleanup];
  }

  lemma SignedCloses(sys: System, w: nat, env: nat -> Env)
    requires w < |sys.ws| && sys.s.life.present && sys.ws[w].prog == [AwaitCleanup]
    ensures var t := Do(sys, Resume(w), env).sys;
            && w < |t.ws|
            && (sys.s.life.cleaned ==> t.s == CloseRecord(sys.s) && t.ws[w].prog == [])
            && (!sys.s.life.cleaned ==> t == sys)
  {
    if sys.s.life.cleaned {
      ReenterIs(sys, w, env);
      assert sys.ws[w].prog[1..] == [];
    }
  }

  lemma CloserAt(sys: System, w: nat)
    requires SysInv(sys) && w < |sys.ws| && sys.ws[w].prog != [] && !sys.ws[w].prog[0].Await?
    ensures sys.ws[w].who.Closer?
    ensures sys.ws[w].prog == if sys.ws[w].prog[0].Leave? then [Leave, TryClose, AwaitCleanup] else [AwaitCleanup]
  {
    OnlyClosersLeave(sys.ws[w].who, sys.ws[w].prog);
    assert sys.ws[w].prog == [sys.ws[w].prog[0]] + sys.ws[w].prog[1..];
  }

  lemma CloserGoes(sys: System, w: nat, env: nat -> Env)
    requires w < |sys.ws| && sys.s.life.present
    requires sys.ws[w].prog == [Leave, TryClose, AwaitCleanup] || sys.ws[w].prog == [AwaitCleanup]
    ensures var t := Do(sys, Resume(w), env).sys;
            && w < |t.ws|
            && (sys.ws[w].prog[0].Leave? ==>
                  && t.s == (if Live(sys.s) then sys.s.(life := sys.s.life.(deleted := true)) else sys.s)
                  && t.ws[w].prog == (if Live(sys.s) then [AwaitCleanup] else []))
            && (!sys.ws[w].prog[0].Leave? && sys.s.life.cleaned ==> t.s == CloseRecord(sys.s) && t.ws[w].prog == [])
            && (!sys.ws[w].prog[0].Leave? && !sys.s.life.cleaned ==> t == sys)
  {
    if sys.ws[w].prog[0].Leave? {
      LeaveCloses(sys, w, env);
    } else {
      SignedCloses(sys, w, env);
    }
  }

  /** A closer that has the lock again closes the session exactly if it is still active, and awaits
      the cleaner then; once the cleaner is through it takes the record away. */
  lemma CloserComesTo(steps: seq<Step>, w: nat, env: nat -> Env)
    requires var sys := Exec(START, steps, env);
             sys.s.life.present && w < |sys.ws| && sys.ws[w].prog != [] && !sys.ws[w].prog[0].Await?
    ensures var sys := Exec(START, steps, env);
            var t := Do(sys, Resume(w), env).sys;
            && sys.ws[w].who.Closer? && w < |t.ws|
            && (sys.ws[w].prog[0].Leave? ==>
                  && t.s == (if Live(sys.s) then sys.s.(life := sys.s.life.(deleted := true)) else sys.s)
                  && t.ws[w].prog == (if Live(sys.s) then [AwaitCleanup] else []))
            && (!sys.ws[w].prog[0].Leave? && sys.s.life.cleaned ==> t.s == CloseRecord(sys.s) && t.ws[w].prog == [])
            && (!sys.ws[w].prog[0].Leave? && !sys.s.life.cleaned ==> t == sys)
  {
    StartInv();
    ExecInv(START, steps, env);
    var sys := Exec(START, steps, env);
    CloserAt(sys, w);
    CloserGoes(sys, w, env);
  }

  lemma ClosesExactly(s: Session, env: nat -> Env)
    ensures Run(s, [TryClose, AwaitCleanup], env).prog == (if Live(s) then [AwaitCleanup] else [])
  {
    assert [TryClose, AwaitCleanup] == [TryClose] + [AwaitCleanup];
    RunNext(s, TryClose, [AwaitCleanup], env);
  }

  /** What a cleaner does at its end: it takes the record of a session that timed out away, and lets
      the closer do so otherwise. */
  predicate Finished(l: Life, l': Life) {
    if l.timedout then !l'.present && l'.closed == l.closed + 1 else l'.cleaned && l'.present
  }

  /** One of the reads that the program is to take down is in another worker's hands. */
  ghost predicate Meets(s: Session, prog: seq<Instr>) {
    exists k :: (Cancel(k) in prog || Detach(k) in prog) && Closed(s, k)
  }

  /** A cleaner's run that does not wait is refused, meets a read in another worker's hands, or
      finishes. */
  lemma {:induction false} RunFinishes(s: Session, prog: seq<Instr>, env: nat -> Env)
    requires CleanShape(prog) && prog != [] && s.life.present
    ensures var p := Run(s, prog, env);
            p.prog == [] ==> p.refused.Some? || Meets(p.s, prog) || Finished(s.life, p.s.life)
    decreases |prog|
  {
    PerformLife(s, prog[0], env);
    var a := Perform(s, prog[0], env);
    if a.Next? {
      if |prog| == 1 {
        assert Run(a.s, prog[1..], env) == Progress(a.s, [], None);
      } else {
        assert forall k :: 0 <= k < |prog[1..]| ==> prog[1..][k] == prog[k + 1];
        RunFinishes(a.s, prog[1..], env);
        MeetsLater(Run(a.s, prog[1..], env).s, prog);
      }
    } else if a.GiveUp? && a.refused.None? {
      assert Closed(s, prog[0].id) && prog[0] in prog;
    }
  }

  lemma MeetsLater(s: Session, prog: seq<Instr>)
    requires prog != []
    ensures Meets(s, prog[1..]) ==> Meets(s, prog)
  {
    if k :| (Cancel(k) in prog[1..] || Detach(k) in prog[1..]) && Closed(s, k) {
      assert Cancel(k) in prog || Detach(k) in prog;
    }
  }

  /** In any interleaving a cleaner that comes to its end was refused, or met a read in another
      worker's hands, or has ended the session: it has taken the record of a session that timed out
      away with its callback, and has otherwise given its closer the sign to do so. */
  lemma CleanerComesTo(steps: seq<Step>, step: Step, env: nat -> Env)
    requires var sys := Exec(START, steps, env);
             && sys.s.life.present
             && ((step.Cleanup? && sys.s.life.deleted && sys.s.readers.Keys <= (set id | id in step.order))
                 || (step.Resume? && step.w < |sys.ws| && sys.ws[step.w].who.Cleaner? && sys.ws[step.w].prog != []))
    ensures var sys := Exec(START, steps, env);
            var t := Do(sys, step, env);
            var w := if step.Resume? then step.w else |sys.ws|;
            && w < |t.sys.ws|
            && (t.sys.ws[w].prog == [] ==>
                  || t.refused.Some? || Finished(sys.s.life, t.sys.s.life)
                  || Meets(t.sys.s, if step.Resume? then sys.ws[w].prog else CleanupProgram(step.order)))
  {
    StartInv();
    ExecInv(START, steps, env);
    var sys := Exec(START, steps, env);
    if step.Cleanup? {
      ResetCareful(step.order);
      RunFinishes(sys.s, CleanupProgram(step.order), env);
    } else {
      WokenFinishes(sys, step.w, env);
    }
  }

  lemma WokenFinishes(sys: System, w: nat, env: nat -> Env)
    requires SysInv(sys) && w < |sys.ws| && sys.ws[w].who.Cleaner? && sys.ws[w].prog != [] && sys.s.life.present
    ensures var t := Do(sys, Resume(w), env);
            w < |t.sys.ws| &&
            (t.sys.ws[w].prog == [] ==>
               t.refused.Some? || Finished(sys.s.life, t.sys.s.life) || Meets(t.sys.s, sys.ws[w].prog))
  {
    assert Shape(Cleaner, sys.ws[w].prog);
    WokenIs(sys, w, env);
    RunFinishes(EndCancel(sys.s, sys.ws[w].prog[0].id), sys.ws[w].prog[1..], env);
    MeetsLater(Woken(sys, w, env).s, sys.ws[w].prog);
  }

  /** The timer that comes to its end has deleted the session. */
  lemma TimerComesTo(steps: seq<Step>, step: Step, env: nat -> Env)
    requires var sys := Exec(START, steps, env);
             && sys.s.life.present
             && ((step.Timeout? && Live(sys.s))
                 || (step.Resume? && step.w < |sys.ws| && sys.ws[step.w].who.Timer? && sys.ws[step.w].prog != []))
    ensures var sys := Exec(START, steps, env);
            var t := Do(sys, step, env).sys;
            var w := if step.Resume? then step.w else |sys.ws|;
            w < |t.ws| && t.s.life.timedout && t.s.life.disposed && (t.ws[w].prog == [] ==> t.s.life.deleted)
  {
    StartInv();
    ExecInv(START, steps, env);
    var sys := Exec(START, steps, env);
    if step.Timeout? {
      TimeoutDeletes(sys, env);
    } else {
      WokenDisposes(sys, step.w, env);
    }
  }

  lemma TimeoutIs(sys: System, env: nat -> Env)
    requires Live(sys.s)
    ensures var p := Run(Struck(sys.s), if sys.s.life.disposed then [Dispose] else [Dismiss(ALL), Dispose], env);
            Do(sys, Timeout, env).sys == System(p.s, sys.ws + [Worker(Timer, p.prog)])
  {
    assert [] + [Dispose] == [Dispose] && [Dismiss(ALL)] + [Dispose] == [Dismiss(ALL), Dispose];
  }

  lemma TimeoutDeletes(sys: System, env: nat -> Env)
    requires SysInv(sys) && Live(sys.s)
    ensures var t := Do(sys, Timeout, env).sys;
            |t.ws| == |sys.ws| + 1 && t.s.life.timedout && t.s.life.disposed && (t.ws[|sys.ws|].prog == [] ==> t.s.life.deleted)
  {
    LifeFrame(sys.s, Struck(sys.s).life);
    TimeoutIs(sys, env);
    if sys.s.life.disposed {
      RunDispose(Struck(sys.s), env);
    } else {
      RunTimer(Struck(sys.s), env);
    }
  }

  lemma WokenDisposes(sys: System, w: nat, env: nat -> Env)
    requires SysInv(sys) && w < |sys.ws| && sys.ws[w].who.Timer? && sys.ws[w].prog != [] && sys.s.life.present
    ensures var t := Do(sys, Resume(w), env).sys;
            w < |t.ws| && t.s.life.timedout && t.s.life.disposed && (t.ws[w].prog == [] ==> t.s.life.deleted)
  {
    assert Shape(Timer, sys.ws[w].prog);
    assert WorkerLife(sys.ws[w], sys.s.life, sys.s.forwards == []);
    ResumeStart(sys, w);
    WokenIs(sys, w, env);
    assert sys.ws[w].prog[1..] == [Dismiss(ALL), Dispose];
    RunTimer(EndCancel(sys.s, sys.ws[w].prog[0].id), env);
  }

  lemma DeleteClientIs(sys: System, env: nat -> Env)
    requires Hears(sys.s)
    ensures var p := Run(sys.s.(life := sys.s.life.(disposed := true)), CloseProgram(), env);
            Do(sys, DeleteClient, env).sys == System(p.s, sys.ws + [Worker(Closer, p.prog)])
  {
  }

  /** A DELETE of the client leaves it disposed, and its closer with no forward request left or
      still at dismissing them. */
  lemma ClientDeleted(steps: seq<Step>, env: nat -> Env)
    requires Hears(Exec(START, steps, env).s)
    ensures var sys := Exec(START, steps, env);
            var t := Do(sys, DeleteClient, env).sys;
            && |t.ws| == |sys.ws| + 1 && t.s.life == sys.s.life.(disposed := true)
            && t.ws[|sys.ws|].who.Closer? && t.ws[|sys.ws|].prog != []
            && (t.ws[|sys.ws|].prog[0].Leave? ==> t.s.forwards == [])
  {
    StartInv();
    ExecInv(START, steps, env);
    var sys := Exec(START, steps, env);
    LifeFrame(sys.s, sys.s.life.(disposed := true));
    DeleteClientIs(sys, env);
    ClosingWaits(sys.s.(life := sys.s.life.(disposed := true)), env);
  }

  lemma ClosingWaits(s: Session, env: nat -> Env)
    requires Sound(s)
    ensures var p := Run(s, CloseProgram(), env);
            p.s.life == s.life && p.prog != [] && (p.prog[0].Leave? ==> p.s.forwards == [])
  {
    RunClose(s, env);
  }
}
