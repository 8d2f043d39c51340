/** The one way in which draining before cancelling does not suffice: a session that times out
    while a DELETE of its client awaits the cancellation of a read that the returned samples
    completed. The client counts as disposed already, so the timer dismisses nothing. */
module TimeoutRace {
  import opened SessionState
  import opened Workers
  import opened WorkerFrames
  import opened WorkerSafety
  import opened WorkerRuns
  import opened WorkerTheorems

  const ALWAYS_OK: nat -> Env := (_: nat) => Env(0, true)

  const ONE_SAMPLE := ReadSpec(FirstCached, 1, 0, 0, 0)

  /** Two readers, each with one sample out for a read of one. */
  const SETUP: seq<Step> := [
    Attach(1), Attach(2), ReadRequest(1, 128, ONE_SAMPLE), ReadRequest(2, 128, ONE_SAMPLE),
    Data(1, 1, 0, Sent(0)), Data(2, 1, 0, Sent(1))]

  const RACE: seq<Step> := SETUP + [DeleteClient, Timeout]

  lemma {:induction false} ExecSnoc(sys: System, steps: seq<Step>, step: Step, env: nat -> Env)
    ensures Exec(sys, steps + [step], env) == Do(Exec(sys, steps, env), step, env).sys
    decreases |steps|
  {
    if steps == [] {
      assert Exec(sys, [step], env) == Exec(Do(sys, step, env).sys, [step][1..], env);
      assert [] + [step] == [step];
    } else {
      assert (steps + [step])[1..] == steps[1..] + [step];
      ExecSnoc(Do(sys, steps[0], env).sys, steps[1..], step, env);
    }
  }

  const READ := Read([], 0, 1, 0, 0, 0, 0, 0, false, false, false, true)

  const IDLE := Reader(None, 0, false, 0, 0)

  const READING := Reader(Some(READ), 128, true, 0, 0)

  /** The reader after its one sample was sent. */
  function Lent(id: ReaderId, buf: nat): Reader {
    Reader(Some(READ.(samples := [Received(buf, id, 1)], lastSample := 1)), 128, true, 1, 0)
  }

  lemma Reading(sys: System, id: ReaderId)
    requires Hears(sys.s) && id in sys.s.readers && sys.s.readers[id] == IDLE && sys.s.forwards == []
    ensures var t := Do(sys, ReadRequest(id, 128, ONE_SAMPLE), ALWAYS_OK).sys;
            t.s == sys.s.(readers := sys.s.readers[id := READING])
  {
    var s := Requested(sys.s, id, 128);
    var again := [NewRead(id, ONE_SAMPLE)];
    RunNext(s, Dismiss(Match(Some(128), id)), [Cancel(id)] + again, ALWAYS_OK);
    RunNext(s, Cancel(id), again, ALWAYS_OK);
    RunNext(s, NewRead(id, ONE_SAMPLE), [], ALWAYS_OK);
    assert again == again + [];
    assert ReadProgram(id, 128, ONE_SAMPLE) == [Dismiss(Match(Some(128), id))] + ([Cancel(id)] + again);
    assert s.readers[id := READING] == sys.s.readers[id := READING];
  }

  const BOTH_READING := FRESH.(readers := map[1 := READING, 2 := READING])

  const ONE_OUT := FRESH.(
    readers := map[1 := Lent(1, 0), 2 := READING], made := 1,
    forwards := [Forward(Received(0, 1, 1), 128, 0, 0)], queue := [Message(128, 0, true)], lent := 1)

  const TWO_OUT := FRESH.(
    readers := map[1 := Lent(1, 0), 2 := Lent(2, 1)], made := 2,
    forwards := [Forward(Received(0, 1, 1), 128, 0, 0), Forward(Received(1, 2, 1), 128, 1, 1)],
    queue := [Message(128, 0, true), Message(128, 1, true)], lent := 2)

  lemma FirstSent(sys: System)
    requires sys.s == BOTH_READING
    ensures Do(sys, Data(1, 1, 0, Sent(0)), ALWAYS_OK).sys.s == ONE_OUT
  {
    assert TakeBuffer(sys.s) == (sys.s.(made := 1), 0);
    assert READ.samples + [Received(0, 1, 1)] == [Received(0, 1, 1)];
    assert sys.s.readers[1 := Lent(1, 0)] == ONE_OUT.readers;
  }

  lemma SecondSent(sys: System)
    requires sys.s == ONE_OUT
    ensures Do(sys, Data(2, 1, 0, Sent(1)), ALWAYS_OK).sys.s == TWO_OUT
  {
    assert TakeBuffer(sys.s) == (sys.s.(made := 2), 1);
    assert READ.samples + [Received(1, 2, 1)] == [Received(1, 2, 1)];
    assert sys.s.readers[2 := Lent(2, 1)] == TWO_OUT.readers;
  }

  lemma BothReading()
    ensures Exec(START, SETUP[..4], ALWAYS_OK).s == BOTH_READING
  {
    ExecSnoc(START, [], SETUP[0], ALWAYS_OK);
    ExecSnoc(START, SETUP[..1], SETUP[1], ALWAYS_OK);
    ExecSnoc(START, SETUP[..2], SETUP[2], ALWAYS_OK);
    ExecSnoc(START, SETUP[..3], SETUP[3], ALWAYS_OK);
    assert [] + [SETUP[0]] == SETUP[..1] && SETUP[..1] + [SETUP[1]] == SETUP[..2];
    assert SETUP[..2] + [SETUP[2]] == SETUP[..3] && SETUP[..3] + [SETUP[3]] == SETUP[..4];
    assert Exec(START, SETUP[..2], ALWAYS_OK).s.readers == map[1 := IDLE, 2 := IDLE];
    Reading(Exec(START, SETUP[..2], ALWAYS_OK), 1);
    Reading(Exec(START, SETUP[..3], ALWAYS_OK), 2);
    assert Exec(START, SETUP[..4], ALWAYS_OK).s.readers == BOTH_READING.readers;
  }

  lemma SetUp()
    ensures Exec(START, SETUP, ALWAYS_OK).s == TWO_OUT
  {
    BothReading();
    ExecSnoc(START, SETUP[..4], SETUP[4], ALWAYS_OK);
    ExecSnoc(START, SETUP[..5], SETUP[5], ALWAYS_OK);
    assert SETUP[..4] + [SETUP[4]] == SETUP[..5] && SETUP[..5] + [SETUP[5]] == SETUP;
    FirstSent(Exec(START, SETUP[..4], ALWAYS_OK));
    SecondSent(Exec(START, SETUP[..5], ALWAYS_OK));
  }

  /** The DELETE gives the first sample back; that completes its read, whose cancellation the
      closer awaits with the second sample still out. */
  const HALF_WAY := FRESH.(
    readers := map[1 := Reader(Some(READ.(rcvd := 1, lastSample := 1, complete := true, open := false)), 128, true, 1, 1),
                   2 := Lent(2, 1)],
    pool := [0], made := 2, forwards := [Forward(Received(1, 2, 1), 128, 1, 1)], queue := [Message(128, 1, true)],
    lent := 2, returned := [0], life := FRESH.life.(disposed := true))

  lemma FirstReturned(s: Session)
    requires s == TWO_OUT.(life := FRESH.life.(disposed := true))
    ensures ReleaseMessage(s, 0, ALWAYS_OK) == Outcome(HALF_WAY, Completed(1))
  {
    assert s.readers[1 := HALF_WAY.readers[1]] == HALF_WAY.readers;
  }

  lemma DeleteWaits(s: Session)
    requires s == TWO_OUT.(life := FRESH.life.(disposed := true))
    ensures Drain(s, ALL, ALWAYS_OK) == Drained(HALF_WAY, Blocked(1))
  {
    FirstReturned(s);
  }

  lemma Deleting(sys: System)
    requires sys.s == TWO_OUT
    ensures Do(sys, DeleteClient, ALWAYS_OK).sys.s == HALF_WAY
  {
    var s := sys.s.(life := sys.s.life.(disposed := true));
    DeleteWaits(s);
    var rest := [Leave, TryClose, AwaitCleanup];
    assert CloseProgram() == [Dismiss(ALL)] + rest;
    RunNext(s, Dismiss(ALL), rest, ALWAYS_OK);
  }

  const TIMED_OUT := HALF_WAY.(life := HALF_WAY.life.(timedout := true, deleted := true))

  lemma TimingOut(sys: System)
    requires sys.s == HALF_WAY
    ensures Do(sys, Timeout, ALWAYS_OK).sys.s == TIMED_OUT
  {
    assert [] + [Dispose] == [Dispose];
    RunDispose(sys.s.(life := sys.s.life.(timedout := true, disposed := true)), ALWAYS_OK);
  }

  lemma Refusing(sys: System)
    requires sys.s == TIMED_OUT
    ensures Do(sys, Cleanup([2, 1]), ALWAYS_OK).refused == Some(Refusal(Cleaner, 2))
  {
    assert 2 in [2, 1] && [2, 1][1] == 1;
    var rest := [Cancel(1)] + (Detaches([2, 1]) + [FinishCleanup]);
    assert CleanupProgram([2, 1]) == [Cancel(2)] + rest;
    RunNext(sys.s, Cancel(2), rest, ALWAYS_OK);
  }

  /** Run for run: the cleaner finds reader 2 with its sample still pending, and is refused. */
  lemma TimeoutDuringDelete()
    ensures Do(Exec(START, RACE, ALWAYS_OK), Cleanup([2, 1]), ALWAYS_OK).refused == Some(Refusal(Cleaner, 2))
  {
    SetUp();
    Deleting(Exec(START, SETUP, ALWAYS_OK));
    ExecSnoc(START, SETUP, DeleteClient, ALWAYS_OK);
    TimingOut(Exec(START, SETUP + [DeleteClient], ALWAYS_OK));
    ExecSnoc(START, SETUP + [DeleteClient], Timeout, ALWAYS_OK);
    assert SETUP + [DeleteClient] + [Timeout] == RACE;
    Refusing(Exec(START, RACE, ALWAYS_OK));
  }
}
