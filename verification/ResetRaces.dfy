/** Two runs in which a READ under way spoils a reset: in one the session stays resetting for good,
    in the other a reset that gets through leaves a read behind. */
module ResetRaces {
  import opened SessionState
  import opened Workers
  import opened WorkerFrames
  import opened WorkerSafety
  import opened WorkerRuns
  import opened WorkerTheorems
  import opened TimeoutRace
  import opened SessionClosing
  import SweepRuns
  import opened ResetRuns

  // ----- given up -----

  /** A READ of a reader that is being read waits for the cancellation of the old read. */
  const REREAD: seq<Step> := [Attach(1), ReadRequest(1, 0, ONE_SAMPLE), ReadRequest(1, 0, ONE_SAMPLE)]

  const READING0 := Reader(Some(READ), 0, true, 0, 0)

  lemma ReadingAnew(sys: System, id: ReaderId)
    requires Hears(sys.s) && id in sys.s.readers && sys.s.readers[id] == IDLE
    ensures Do(sys, ReadRequest(id, 0, ONE_SAMPLE), ALWAYS_OK).sys.s == sys.s.(readers := sys.s.readers[id := READING0])
  {
    var s := Requested(sys.s, id, 0);
    var again := [NewRead(id, ONE_SAMPLE)];
    assert ReadProgram(id, 0, ONE_SAMPLE) == [Cancel(id)] + again;
    RunNext(s, Cancel(id), again, ALWAYS_OK);
    RunNext(s, NewRead(id, ONE_SAMPLE), [], ALWAYS_OK);
    assert again == again + [];
    assert s.readers[id := READING0] == sys.s.readers[id := READING0];
  }

  lemma ReadingAgain(sys: System, id: ReaderId)
    requires Hears(sys.s) && id in sys.s.readers && sys.s.readers[id] == READING0
    ensures var t := Do(sys, ReadRequest(id, 0, ONE_SAMPLE), ALWAYS_OK).sys.s; Closed(t, id) && t.life == sys.s.life && t.forwards == sys.s.forwards
  {
    var s := Requested(sys.s, id, 0);
    var again := [NewRead(id, ONE_SAMPLE)];
    assert ReadProgram(id, 0, ONE_SAMPLE) == [Cancel(id)] + again;
    RunNext(s, Cancel(id), again, ALWAYS_OK);
  }

  lemma Rereading()
    ensures var t := Exec(START, REREAD, ALWAYS_OK).s; Closed(t, 1) && t.life == FRESH.life && t.forwards == []
  {
    ExecSnoc(START, [], REREAD[0], ALWAYS_OK);
    ExecSnoc(START, REREAD[..1], REREAD[1], ALWAYS_OK);
    ExecSnoc(START, REREAD[..2], REREAD[2], ALWAYS_OK);
    assert [] + [REREAD[0]] == REREAD[..1] && REREAD[..1] + [REREAD[1]] == REREAD[..2] && REREAD[..2] + [REREAD[2]] == REREAD;
    ReadingAnew(Exec(START, REREAD[..1], ALWAYS_OK), 1);
    ReadingAgain(Exec(START, REREAD[..2], ALWAYS_OK), 1);
  }

  /** A reset that finds the read of a reader in a READ's hands: the resetter gives up, and the
      session stays resetting, present and unclosed, however the run goes on. */
  lemma ResetDuringRead(after: seq<Step>)
    ensures var t := Exec(Do(Exec(START, REREAD, ALWAYS_OK), Reset([1]), ALWAYS_OK).sys, after, ALWAYS_OK);
            Held(t) && t.s.life.present && !t.s.life.deleted && !t.s.life.timedout
  {
    Rereading();
    StartInv();
    ExecInv(START, REREAD, ALWAYS_OK);
    var sys := Exec(START, REREAD, ALWAYS_OK);
    var s := sys.s.(life := sys.s.life.(resetting := true));
    ResetLaunched(sys, [1], ALWAYS_OK);
    RunWhole(s, [1], ALWAYS_OK);
    RunTail(s.(queue := []), [1], ALWAYS_OK);
    var t := Do(sys, Reset([1]), ALWAYS_OK).sys;
    assert Closed(t.s, 1) && 1 in [1];
    GivenUpHeld(sys, Reset([1]), ALWAYS_OK);
    StepGood(sys, Reset([1]), ALWAYS_OK);
    HeldForGood(t, after, ALWAYS_OK);
  }

  // ----- overtaken -----

  /** Readers 1 and 2 have each a sample out for a read of one, reader 3 is read. */
  const THREE_READ: seq<Step> := SETUP + [Attach(3), ReadRequest(3, 0, ONE_SAMPLE)]

  const THREE := TWO_OUT.(readers := map[1 := Lent(1, 0), 2 := Lent(2, 1), 3 := READING0])

  lemma ThreeRead()
    ensures Exec(START, THREE_READ, ALWAYS_OK).s == THREE
  {
    SetUp();
    var two := Exec(START, SETUP, ALWAYS_OK);
    ExecSnoc(START, SETUP, Attach(3), ALWAYS_OK);
    var three := Exec(START, SETUP + [Attach(3)], ALWAYS_OK);
    assert three.s.readers[3] == IDLE;
    ReadingAnew(three, 3);
    ExecSnoc(START, SETUP + [Attach(3)], ReadRequest(3, 0, ONE_SAMPLE), ALWAYS_OK);
    assert SETUP + [Attach(3)] + [ReadRequest(3, 0, ONE_SAMPLE)] == THREE_READ;
    assert three.s.readers[3 := READING0] == THREE.readers;
  }

  /** The reader's read of one sample is complete and awaited. */
  function Given(forward: bool): Reader {
    Reader(Some(READ.(rcvd := 1, lastSample := 1, complete := true, open := false)), 128, forward, 1, 1)
  }

  /** A READ of reader 2 dismisses message 0 on its way to message 1, and so awaits reader 1. */
  const ONE_BACK := THREE.(
    readers := map[1 := Given(true), 2 := Lent(2, 1).(forward := false), 3 := READING0],
    pool := [0], forwards := [Forward(Received(1, 2, 1), 128, 1, 1)], queue := [Message(128, 1, true)], returned := [0])

  lemma FirstBack(s: Session)
    requires s == THREE.(readers := map[1 := Lent(1, 0), 2 := Lent(2, 1).(forward := false), 3 := READING0])
    ensures ReleaseMessage(s, 0, ALWAYS_OK) == Outcome(ONE_BACK, Completed(1))
  {
    assert s.readers[1 := Given(true)] == ONE_BACK.readers;
  }

  const REREAD_TWO := ReadProgram(2, 128, ONE_SAMPLE)

  lemma RereadingTwo(sys: System)
    requires sys.s == THREE
    ensures Do(sys, ReadRequest(2, 128, ONE_SAMPLE), ALWAYS_OK).sys
            == System(ONE_BACK, sys.ws + [Worker(Requester, [Await(1)] + REREAD_TWO)])
  {
    var s := Requested(sys.s, 2, 128);
    assert s.readers == map[1 := Lent(1, 0), 2 := Lent(2, 1).(forward := false), 3 := READING0];
    FirstBack(s);
    var m := Match(Some(128), 2);
    assert !Matches(s.forwards[0], m) && Matches(s.forwards[1], m);
    assert Drain(s, m, ALWAYS_OK) == Drained(ONE_BACK, Blocked(1));
    var rest := [Cancel(2), NewRead(2, ONE_SAMPLE)];
    assert REREAD_TWO == [Dismiss(m)] + rest;
    RunNext(s, Dismiss(m), rest, ALWAYS_OK);
  }

  /** The reset gives the other sample back and awaits reader 2. */
  const BOTH_BACK := ONE_BACK.(
    readers := map[1 := Given(true), 2 := Given(false), 3 := READING0],
    pool := [0, 1], forwards := [], queue := [], returned := [0, 1], life := FRESH.life.(resetting := true))

  const ORDER: seq<ReaderId> := [2, 3, 1]

  lemma SecondBack(s: Session)
    requires s == ONE_BACK.(life := FRESH.life.(resetting := true))
    ensures ReleaseMessage(s, 0, ALWAYS_OK) == Outcome(BOTH_BACK, Completed(2))
  {
    assert s.readers[2 := Given(false)] == BOTH_BACK.readers;
  }

  lemma Resetting(sys: System)
    requires SysInv(sys) && sys.s == ONE_BACK
    ensures Do(sys, Reset(ORDER), ALWAYS_OK).sys
            == System(BOTH_BACK, sys.ws + [Worker(Resetter, [Await(2)] + ResetProgram(ORDER))])
  {
    var s := sys.s.(life := sys.s.life.(resetting := true));
    ResetLaunched(sys, ORDER, ALWAYS_OK);
    RunWhole(s, ORDER, ALWAYS_OK);
    SecondBack(s);
    assert Drain(s, ALL, ALWAYS_OK) == Drained(BOTH_BACK, Blocked(2));
  }

  /** The resetter passes reader 2, which has no read now, and awaits reader 3. */
  const AT_THREE := BOTH_BACK.(readers := map[1 := Given(true), 2 := Given(false).(read := None), 3 := READING0.(read := Some(READ.(open := false)))])

  lemma PassingTail(s: Session)
    requires Sound(s) && s == BOTH_BACK.(readers := map[1 := Given(true), 2 := Given(false).(read := None), 3 := READING0])
    ensures Run(s, Tail(ORDER), ALWAYS_OK) == Progress(AT_THREE, [Await(3)] + Tail([1]), None)
  {
    RunTail(s, ORDER, ALWAYS_OK);
    assert ORDER[1..] == [3, 1] && [3, 1][1..] == [1];
    assert !HasRead(s, 2) && FirstReading(s, ORDER) == FirstReading(s, [3, 1]) == Some(3) && Beyond(s, ORDER) == [1];
    assert CloseRead(s, 3).readers == AT_THREE.readers;
  }

  lemma NothingOut(s: Session, order: seq<ReaderId>)
    requires Sound(s) && s.forwards == [] && s.queue == []
    ensures Run(s, ResetProgram(order), ALWAYS_OK) == Run(s, Tail(order), ALWAYS_OK)
  {
    RunWhole(s, order, ALWAYS_OK);
    assert Drain(s, ALL, ALWAYS_OK) == Drained(s, Done) && s.(queue := []) == s;
  }

  lemma TwoEnded()
    ensures EndCancel(BOTH_BACK, 2) == BOTH_BACK.(readers := map[1 := Given(true), 2 := Given(false).(read := None), 3 := READING0])
  {
    assert EndCancel(BOTH_BACK, 2).readers == map[1 := Given(true), 2 := Given(false).(read := None), 3 := READING0];
  }

  lemma Passing(sys: System, w: nat)
    requires SysInv(sys) && w < |sys.ws| && sys.s == BOTH_BACK && sys.ws[w] == Worker(Resetter, [Await(2)] + ResetProgram(ORDER))
    ensures Do(sys, Resume(w), ALWAYS_OK).sys == System(AT_THREE, sys.ws[w := Worker(Resetter, [Await(3)] + Tail([1]))])
  {
    assert sys.ws[w].prog[1..] == ResetProgram(ORDER);
    ResetAwakes(sys, w);
    WokenIs(sys, w, ALWAYS_OK);
    TwoEnded();
    NothingOut(EndCancel(sys.s, 2), ORDER);
    PassingTail(EndCancel(sys.s, 2));
  }

  /** The READ of reader 2 gets its turn behind the resetter's back. */
  const OVERTAKEN := AT_THREE.(readers := map[
    1 := Given(true).(read := None), 2 := Reader(Some(READ), 128, true, 1, 1), 3 := AT_THREE.readers[3]])

  lemma Overtaking(sys: System, w: nat)
    requires w < |sys.ws| && sys.s == AT_THREE && sys.ws[w] == Worker(Requester, [Await(1)] + REREAD_TWO)
    ensures Do(sys, Resume(w), ALWAYS_OK).sys == System(OVERTAKEN, sys.ws[w := Worker(Requester, [])])
  {
    assert sys.ws[w].prog[1..] == REREAD_TWO;
    WokenIs(sys, w, ALWAYS_OK);
    var s := EndCancel(sys.s, 1);
    var m, again := Match(Some(128), 2), [NewRead(2, ONE_SAMPLE)];
    assert REREAD_TWO == [Dismiss(m)] + ([Cancel(2)] + again);
    RunNext(s, Dismiss(m), [Cancel(2)] + again, ALWAYS_OK);
    RunNext(s, Cancel(2), again, ALWAYS_OK);
    assert again == again + [];
    RunNext(s, NewRead(2, ONE_SAMPLE), [], ALWAYS_OK);
    assert s.readers[2 := OVERTAKEN.readers[2]] == OVERTAKEN.readers;
  }

  lemma GettingThrough(sys: System, w: nat)
    requires SysInv(sys) && w < |sys.ws| && sys.s == OVERTAKEN && sys.ws[w] == Worker(Resetter, [Await(3)] + Tail([1]))
    ensures var t := Do(sys, Resume(w), ALWAYS_OK).sys;
            w < |t.ws| && t.ws[w].prog == [] && Live(t.s) && HasRead(t.s, 2) && ReadOf(t.s, 2).open
  {
    assert sys.ws[w].prog[1..] == Tail([1]);
    ResetAwakes(sys, w);
    ResetResumed(sys, w, ALWAYS_OK);
    var s := EndCancel(sys.s, 3);
    RunTail(s, [1], ALWAYS_OK);
    assert [1][1..] == [];
    assert FirstReading(s, [1]) == FirstReading(s, []) == None;
  }

  /** The workers of the run: the READ of reader 2 is the next one after those of its start. */
  const READ_TWO: nat := |Exec(START, THREE_READ, ALWAYS_OK).ws|

  const RESET: nat := READ_TWO + 1

  /** A reset that gets through leaves the session active with an open read on reader 2, which is
      in its order: the READ that set it up was under way when the reset began. */
  lemma ResetOvertaken()
    ensures var t := Do(Do(Do(Do(Do(Exec(START, THREE_READ, ALWAYS_OK), ReadRequest(2, 128, ONE_SAMPLE), ALWAYS_OK).sys,
                                 Reset(ORDER), ALWAYS_OK).sys, Resume(RESET), ALWAYS_OK).sys,
                           Resume(READ_TWO), ALWAYS_OK).sys, Resume(RESET), ALWAYS_OK).sys;
            && RESET < |t.ws| && t.ws[RESET].who.Resetter? && t.ws[RESET].prog == []
            && Live(t.s) && 2 in ORDER && HasRead(t.s, 2) && ReadOf(t.s, 2).open
  {
    ThreeRead();
    StartInv();
    ExecInv(START, THREE_READ, ALWAYS_OK);
    var s0 := Exec(START, THREE_READ, ALWAYS_OK);
    RereadingTwo(s0);
    StepGood(s0, ReadRequest(2, 128, ONE_SAMPLE), ALWAYS_OK);
    var s1 := Do(s0, ReadRequest(2, 128, ONE_SAMPLE), ALWAYS_OK).sys;
    Resetting(s1);
    StepGood(s1, Reset(ORDER), ALWAYS_OK);
    var s2 := Do(s1, Reset(ORDER), ALWAYS_OK).sys;
    Passing(s2, RESET);
    StepGood(s2, Resume(RESET), ALWAYS_OK);
    var s3 := Do(s2, Resume(RESET), ALWAYS_OK).sys;
    Overtaking(s3, READ_TWO);
    StepGood(s3, Resume(READ_TWO), ALWAYS_OK);
    var s4 := Do(s3, Resume(READ_TWO), ALWAYS_OK).sys;
    GettingThrough(s4, RESET);
    SweepRuns.ResumeKeepsWho(s4, RESET, ALWAYS_OK);
  }
}
