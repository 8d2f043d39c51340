/** What a READ comes to: the read that it sets up, or why it sets up none, in any interleaving. */
module ReadSetUp {
  import opened SessionState
  import opened Loans
  import Dismissal
  import opened Workers
  import opened WorkerFrames
  import opened WorkerSafety
  import opened WorkerRuns
  import opened WorkerTheorems
  import opened SweepRuns

  /** The reader forwards, and has a read with nothing of it done yet, bounded and paced as it was
      asked for, that begins where the start point says. */
  predicate SetUp(s: Session, id: ReaderId, spec: ReadSpec) {
    HasRead(s, id) && s.readers[id].forward && AsSpecified(ReadOf(s, id), spec)
    && Last(s, id) == (match spec.from
                       case FirstCached => 0
                       case LastReturned => s.readers[id].lastReturned
                       case LastForwarded => s.readers[id].lastForwarded)
  }

  predicate AsSpecified(r: Read, spec: ReadSpec) {
    && r.max == spec.max && r.maxElapsed == spec.maxElapsed && r.pace == spec.pace && r.start == spec.start
    && r.samples == [] && r.rcvd == 0 && r.lastTs == 0
    && !r.complete && !r.delayed && !r.available && r.open
  }

  function Last(s: Session, id: ReaderId): int
    requires HasRead(s, id)
  {
    ReadOf(s, id).lastSample
  }

  /** But for reader `id` nothing has changed, and nothing of its stream either. */
  predicate OnlyReader(s: Session, t: Session, id: ReaderId) {
    && id in s.readers && id in t.readers && t == s.(readers := s.readers[id := t.readers[id]])
    && t.readers[id].stream == s.readers[id].stream
  }

  lemma RunSetUp(s: Session, id: ReaderId, spec: ReadSpec, env: nat -> Env)
    ensures var p := Run(s, [NewRead(id, spec)], env);
            && p.prog == [] && p.refused.None?
            && (id !in s.readers ==> p.s == s)
            && (id in s.readers ==> SetUp(p.s, id, spec) && OnlyReader(s, p.s, id))
  {
    assert [NewRead(id, spec)] == [NewRead(id, spec)] + [];
    RunNext(s, NewRead(id, spec), [], env);
  }

  /** With the dismissal behind it a READ is refused with samples pending, gives up at a read in
      another worker's hands, awaits the cancellation of an open one, and otherwise sets up its
      read. */
  lemma RunCancelled(s: Session, id: ReaderId, spec: ReadSpec, env: nat -> Env)
    requires id in s.readers
    ensures var p := Run(s, [Cancel(id), NewRead(id, spec)], env);
            if !HasRead(s, id) then p.prog == [] && p.refused.None? && SetUp(p.s, id, spec) && OnlyReader(s, p.s, id)
            else if ReadOf(s, id).samples != [] then p == Progress(s, [], Some(id))
            else if !ReadOf(s, id).open then p == Progress(s, [], None)
            else p == Progress(CloseRead(s, id), [Await(id), NewRead(id, spec)], None)
  {
    assert [Cancel(id), NewRead(id, spec)] == [Cancel(id)] + [NewRead(id, spec)];
    RunNext(s, Cancel(id), [NewRead(id, spec)], env);
    RunSetUp(s, id, spec, env);
  }

  /** Whether a READ's program has come to its end in an allowed way. */
  ghost predicate ReadEnded(s: Session, refused: Option<ReaderId>, id: ReaderId, spec: ReadSpec) {
    refused == Some(id) || id !in s.readers || Closed(s, id) || SetUp(s, id, spec)
  }

  /** What is left of the program of a READ. */
  predicate AtRead(prog: seq<Instr>, id: ReaderId, stream: StreamId, spec: ReadSpec) {
    prog != [] ==>
      prog[0].Await? && (prog[1..] == [NewRead(id, spec)] || (Reliable(stream) && prog[1..] == ReadProgram(id, stream, spec)))
  }

  lemma EndsWaiting(s: Session, id: ReaderId, stream: StreamId, spec: ReadSpec, env: nat -> Env)
    requires id in s.readers
    ensures var p := Run(s, [Cancel(id), NewRead(id, spec)], env);
            AtRead(p.prog, id, stream, spec) && (p.prog == [] ==> ReadEnded(p.s, p.refused, id, spec))
            && id in p.s.readers && p.s.readers[id].stream == s.readers[id].stream
  {
    RunCancelled(s, id, spec, env);
    assert [Await(id), NewRead(id, spec)][1..] == [NewRead(id, spec)];
  }

  lemma RunWholeRead(s: Session, id: ReaderId, stream: StreamId, spec: ReadSpec, env: nat -> Env)
    requires id in s.readers
    ensures var p := Run(s, ReadProgram(id, stream, spec), env);
            AtRead(p.prog, id, stream, spec) && (p.prog == [] ==> ReadEnded(p.s, p.refused, id, spec))
            && id in p.s.readers && p.s.readers[id].stream == s.readers[id].stream
  {
    var rest := [Cancel(id), NewRead(id, spec)];
    if Reliable(stream) {
      var m := Match(Some(stream), id);
      var d := Drain(s, m, env);
      assert ReadProgram(id, stream, spec) == [Dismiss(m)] + rest;
      RunNext(s, Dismiss(m), rest, env);
      Dismissal.DrainKeepsCounts(s, m, env);
      if d.out.Blocked? {
        assert ([Await(d.out.id)] + ReadProgram(id, stream, spec))[1..] == ReadProgram(id, stream, spec);
      } else {
        EndsWaiting(d.s, id, stream, spec, env);
      }
    } else {
      assert ReadProgram(id, stream, spec) == rest;
      EndsWaiting(s, id, stream, spec, env);
    }
  }

  /** A READ that finds its reader gone is over, whether it has still to dismiss or not. */
  lemma RunGone(s: Session, id: ReaderId, stream: StreamId, spec: ReadSpec, env: nat -> Env)
    requires id !in s.readers
    ensures var p := Run(s, ReadProgram(id, stream, spec), env); AtRead(p.prog, id, stream, spec) && id !in p.s.readers
  {
    var rest := [Cancel(id), NewRead(id, spec)];
    var t := s;
    if Reliable(stream) {
      var m := Match(Some(stream), id);
      assert ReadProgram(id, stream, spec) == [Dismiss(m)] + rest;
      RunNext(s, Dismiss(m), rest, env);
      Dismissal.DrainKeepsCounts(s, m, env);
      t := Drain(s, m, env).s;
      if Drain(s, m, env).out.Blocked? {
        assert ([Await(Drain(s, m, env).out.id)] + ReadProgram(id, stream, spec))[1..] == ReadProgram(id, stream, spec);
      }
    } else {
      assert ReadProgram(id, stream, spec) == rest;
    }
    assert rest == [Cancel(id)] + [NewRead(id, spec)];
    RunNext(t, Cancel(id), [NewRead(id, spec)], env);
    RunSetUp(t, id, spec, env);
  }

  // ----- over whole runs -----

  /** Worker `w` is a READ for the reader. */
  ghost predicate Asking(sys: System, w: nat, id: ReaderId, stream: StreamId, spec: ReadSpec) {
    SysInv(sys) && w < |sys.ws| && sys.ws[w].who.Requester? && AtRead(sys.ws[w].prog, id, stream, spec)
  }

  lemma WokenRead(sys: System, w: nat, id: ReaderId, stream: StreamId, spec: ReadSpec, env: nat -> Env)
    requires Asking(sys, w, id, stream, spec) && sys.ws[w].prog != [] && sys.s.life.present
    ensures var p := Woken(sys, w, env);
            AtRead(p.prog, id, stream, spec) && (p.prog == [] ==> ReadEnded(p.s, p.refused, id, spec))
  {
    var s := EndCancel(sys.s, sys.ws[w].prog[0].id);
    if sys.ws[w].prog[1..] == [NewRead(id, spec)] {
      RunSetUp(s, id, spec, env);
    } else if id in s.readers {
      RunWholeRead(s, id, stream, spec, env);
    } else {
      RunGone(s, id, stream, spec, env);
    }
  }

  lemma AskingStep(sys: System, step: Step, w: nat, id: ReaderId, stream: StreamId, spec: ReadSpec, env: nat -> Env)
    requires Asking(sys, w, id, stream, spec)
    ensures Asking(Do(sys, step, env).sys, w, id, stream, spec)
  {
    StepGood(sys, step, env);
    if step == Resume(w) {
      ResumeKeepsWho(sys, w, env);
      if sys.ws[w].prog != [] && sys.s.life.present {
        WokenRead(sys, w, id, stream, spec, env);
        WokenIs(sys, w, env);
      }
    } else {
      OthersKeepWorker(sys, step, env, w);
    }
  }

  lemma {:induction false} AskingRun(sys: System, steps: seq<Step>, w: nat, id: ReaderId, stream: StreamId, spec: ReadSpec, env: nat -> Env)
    requires Asking(sys, w, id, stream, spec)
    ensures Asking(Exec(sys, steps, env), w, id, stream, spec)
    decreases |steps|
  {
    if steps != [] {
      AskingStep(sys, steps[0], w, id, stream, spec, env);
      AskingRun(Do(sys, steps[0], env).sys, steps[1..], w, id, stream, spec, env);
    }
  }

  lemma Asked(sys: System, id: ReaderId, stream: StreamId, spec: ReadSpec, env: nat -> Env)
    requires SysInv(sys) && Hears(sys.s) && id in sys.s.readers
    ensures var t := Do(sys, ReadRequest(id, stream, spec), env);
            && Asking(t.sys, |sys.ws|, id, stream, spec)
            && id in t.sys.s.readers && t.sys.s.readers[id].stream == stream
            && (t.sys.ws[|sys.ws|].prog == [] ==> t.refused == Some(Refusal(Requester, id)) || Closed(t.sys.s, id) || SetUp(t.sys.s, id, spec))
  {
    StepGood(sys, ReadRequest(id, stream, spec), env);
    RunWholeRead(Requested(sys.s, id, stream), id, stream, spec, env);
  }

  /** A READ that gets to its end, at once or after any number of waits with anybody in between:
      it was refused for the samples pending, its reader is gone, the read that is there is in
      another worker's hands, or the reader has a fresh read that is just what was asked for; at
      once that is on the requested stream. */
  lemma ReadComesTo(before: seq<Step>, id: ReaderId, stream: StreamId, spec: ReadSpec, between: seq<Step>, env: nat -> Env)
    requires var sys := Exec(START, before, env); Hears(sys.s) && id in sys.s.readers
    ensures var sys := Exec(START, before, env);
            var w := |sys.ws|;
            var t := Do(sys, ReadRequest(id, stream, spec), env);
            var u := Exec(t.sys, between, env);
            && id in t.sys.s.readers && t.sys.s.readers[id].stream == stream
            && w < |t.sys.ws| && w < |u.ws|
            && (t.sys.ws[w].prog == [] ==> t.refused == Some(Refusal(Requester, id)) || Closed(t.sys.s, id) || SetUp(t.sys.s, id, spec))
            && (u.s.life.present && u.ws[w].prog != [] ==>
                  var v := Do(u, Resume(w), env);
                  w < |v.sys.ws| &&
                  (v.sys.ws[w].prog == [] ==>
                     v.refused == Some(Refusal(Requester, id)) || id !in v.sys.s.readers || Closed(v.sys.s, id) || SetUp(v.sys.s, id, spec)))
  {
    StartInv();
    ExecInv(START, before, env);
    var sys := Exec(START, before, env);
    Asked(sys, id, stream, spec, env);
    var t := Do(sys, ReadRequest(id, stream, spec), env);
    AskingRun(t.sys, between, |sys.ws|, id, stream, spec, env);
    var u := Exec(t.sys, between, env);
    if u.s.life.present && u.ws[|sys.ws|].prog != [] {
      WokenRead(u, |sys.ws|, id, stream, spec, env);
      WokenIs(u, |sys.ws|, env);
    }
  }
}
