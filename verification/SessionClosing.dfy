/** Who closes a session and how often, over every interleaving of closer, timer, resetter
    and cleaner. */
module SessionClosing {
  import opened SessionState
  import opened Loans
  import opened Workers
  import opened WorkerFrames
  import opened WorkerSafety
  import opened WorkerRuns
  import opened WorkerTheorems

  /** The session-closed callback ran once for a record that is gone and not for one that is
      still there. */
  lemma ClosedOnce(steps: seq<Step>, env: nat -> Env)
    ensures var l := Exec(START, steps, env).s.life; l.closed == (if l.present then 0 else 1)
  {
    StartInv();
    ExecInv(START, steps, env);
  }

  /** A session's end is decided by one step: from then on it is the timer's or the closer's
      for good. */
  predicate Decided(l: Life, timer: bool) { l.deleted && l.timedout == timer }

  lemma {:induction false} DecidedForGood(sys: System, steps: seq<Step>, env: nat -> Env)
    requires SysInv(sys) && sys.s.life.deleted
    ensures Decided(Exec(sys, steps, env).s.life, sys.s.life.timedout)
    decreases |steps|
  {
    if steps != [] {
      StepGood(sys, steps[0], env);
      DecidedForGood(Do(sys, steps[0], env).sys, steps[1..], env);
    }
  }

  /** What one worker may do to the end of a session: timer and closer decide it, the closer
      takes away the record of a session it deleted, the cleaner that of one that timed out. */
  lemma EndMoves(who: Who, l: Life, l': Life)
    requires Moves(who, l, l')
    ensures !l.deleted && l'.deleted ==> who == (if l'.timedout then Timer else Closer)
    ensures l.closed != l'.closed ==>
              l.deleted && l.present && !l'.present && l'.closed == l.closed + 1 && who == (if l.timedout then Cleaner else Closer)
  {
  }

  /** Between the steps of any run: the flag `deleted` is set by the timer when it struck
      first and by the closer otherwise; the record is taken away, with its callback, by the
      cleaner when the timer struck first and by the closer otherwise. */
  lemma OneWinner(steps: seq<Step>, step: Step, env: nat -> Env)
    ensures var sys := Exec(START, steps, env);
            var l, l' := sys.s.life, Do(sys, step, env).sys.s.life;
            && (!l.deleted && l'.deleted ==> Actor(sys, step) == Some(if l'.timedout then Timer else Closer))
            && (l.closed != l'.closed ==>
                  && l.deleted && l.present && !l'.present && l'.closed == 1
                  && Actor(sys, step) == Some(if l.timedout then Cleaner else Closer))
  {
    ClosedOnce(steps, env);
    StartInv();
    ExecInv(START, steps, env);
    var sys := Exec(START, steps, env);
    StepGood(sys, step, env);
    var l' := Do(sys, step, env).sys.s.life;
    if l' != sys.s.life {
      EndMoves(Actor(sys, step).value, sys.s.life, l');
    }
  }

  /** Whoever a run has decided the session's end for, timer or closer, stays the winner
      however the run goes on. */
  lemma WinnerForGood(before: seq<Step>, after: seq<Step>, env: nat -> Env)
    requires Exec(START, before, env).s.life.deleted
    ensures var sys := Exec(START, before, env);
            Decided(Exec(sys, after, env).s.life, sys.s.life.timedout)
  {
    StartInv();
    ExecInv(START, before, env);
    DecidedForGood(Exec(START, before, env), after, env);
  }

  /** Data, message, timer, open and reset steps do nothing to a session that is gone or that
      a closer, the timer or a resetter holds; nor does a closer that comes too late. */
  lemma HeldSessionLeftAlone(sys: System, step: Step, env: nat -> Env)
    requires SysInv(sys) && !Live(sys.s)
    ensures !step.Cleanup? && !step.Sweep? && !step.Resume? ==> Do(sys, step, env) == Stepped(sys, None)
    ensures step.Resume? && step.w < |sys.ws| && sys.ws[step.w].prog != [] && sys.ws[step.w].prog[0].Leave? ==>
              Do(sys, step, env).sys.s == sys.s
  {
    if step.Resume? && step.w < |sys.ws| && sys.ws[step.w].prog != [] && sys.ws[step.w].prog[0].Leave? {
      OnlyClosersLeave(sys.ws[step.w].who, sys.ws[step.w].prog);
      RunTryClose(sys.s, env);
    }
  }

  /** Once the record is gone no step touches the session again. */
  lemma {:induction false} GoneForGood(sys: System, steps: seq<Step>, env: nat -> Env)
    requires !sys.s.life.present
    ensures Exec(sys, steps, env).s == sys.s
    decreases |steps|
  {
    if steps != [] {
      GoneForGood(Do(sys, steps[0], env).sys, steps[1..], env);
    }
  }

  // ----- exactly when a cleaner is refused -----

  /** The first reader in the cleaner's order that has a read. */
  function FirstReading(s: Session, order: seq<ReaderId>): (r: Option<ReaderId>)
    ensures r.Some? ==> HasRead(s, r.value)
  {
    if order == [] then None
    else if HasRead(s, order[0]) then Some(order[0])
    else FirstReading(s, order[1..])
  }

  lemma {:induction false} DetachesUnrefused(s: Session, order: seq<ReaderId>, env: nat -> Env)
    requires forall id :: id in order ==> !HasRead(s, id)
    ensures Run(s, Detaches(order) + [FinishCleanup], env).refused.None?
    decreases |order|
  {
    if order == [] {
      assert Detaches(order) + [FinishCleanup] == [FinishCleanup] + [];
      RunNext(s, FinishCleanup, [], env);
    } else {
      var rest := Detaches(order[1..]) + [FinishCleanup];
      assert Detaches(order) + [FinishCleanup] == [Detach(order[0])] + rest;
      RunNext(s, Detach(order[0]), rest, env);
      forall id | id in order[1..]
        ensures !HasRead(s.(readers := s.readers - {order[0]}), id)
      {
        assert id in order;
      }
      DetachesUnrefused(s.(readers := s.readers - {order[0]}), order[1..], env);
    }
  }

  lemma {:induction false} CancelsRefused(s: Session, order: seq<ReaderId>, all: seq<ReaderId>, env: nat -> Env)
    requires forall id :: id in all && id !in order ==> !HasRead(s, id)
    ensures var first := FirstReading(s, order);
            Run(s, Cancels(order) + (Detaches(all) + [FinishCleanup]), env).refused
            == if first.Some? && ReadOf(s, first.value).samples != [] then first else None
    decreases |order|
  {
    var tail := Detaches(all) + [FinishCleanup];
    if order == [] {
      assert Cancels(order) + tail == tail;
      DetachesUnrefused(s, all, env);
    } else {
      assert Cancels(order) + tail == [Cancel(order[0])] + (Cancels(order[1..]) + tail);
      RunNext(s, Cancel(order[0]), Cancels(order[1..]) + tail, env);
      if !HasRead(s, order[0]) {
        CancelsRefused(s, order[1..], all, env);
      }
    }
  }

  /** A cleaner that starts is refused exactly when the first reader in its order that has a
      read has samples pending, and it is refused at that reader. */
  lemma CleanupRefusedExactly(sys: System, order: seq<ReaderId>, env: nat -> Env)
    requires sys.s.life.present && sys.s.life.deleted && sys.s.readers.Keys <= (set id | id in order)
    ensures var first := FirstReading(sys.s, order);
            Do(sys, Cleanup(order), env).refused
            == if first.Some? && ReadOf(sys.s, first.value).samples != [] then Some(Refusal(Cleaner, first.value)) else None
  {
    CancelsRefused(sys.s, order, order, env);
    assert CleanupProgram(order) == Cancels(order) + (Detaches(order) + [FinishCleanup]);
  }
}
