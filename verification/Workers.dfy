/** The agent's workers on one session. A worker holds the session's lock while it runs
    and lets go of it only to await a cancelled read, between a DELETE of the client and
    the close that follows it, and to await the cleanup worker. Its program is what it has
    still to do; a step runs one worker from one such point to the next. */
module Workers {
  import opened SessionState

  /** Where a new read starts in the reader's cache. */
  datatype StartPoint = FirstCached | LastReturned | LastForwarded

  datatype ReadSpec = ReadSpec(from: StartPoint, max: nat, maxElapsed: nat, pace: nat, start: int)

  datatype Instr =
    | Dismiss(m: Match)
    | Cancel(id: ReaderId)
    | Await(id: ReaderId)
    | Detach(id: ReaderId)
    | NewRead(id: ReaderId, spec: ReadSpec)
    | ResetStreams
    | EndReset
    | Dispose
    | Leave
    | TryClose
    | AwaitCleanup
    | FinishCleanup

  datatype Who = Resetter | Timer | Closer | Cleaner | Deleter | Requester | Sweeper | Releaser

  datatype Worker = Worker(who: Who, prog: seq<Instr>)

  datatype System = System(s: Session, ws: seq<Worker>)

  const ALL := Match(None, EVERY_READER)

  /** How far a worker got: the session it leaves, what is left of its program, and the
      reader whose read it could not cancel because samples were still pending. */
  datatype Progress = Progress(s: Session, prog: seq<Instr>, refused: Option<ReaderId>)

  function StartOf(a: Reader, from: StartPoint): int {
    match from
    case FirstCached => 0
    case LastReturned => a.lastReturned
    case LastForwarded => a.lastForwarded
  }

  function FreshRead(a: Reader, spec: ReadSpec): Read {
    Read([], 0, spec.max, StartOf(a, spec.from), spec.start, 0, spec.pace, spec.maxElapsed, false, false, false, true)
  }

  function CloseRead(s: Session, id: ReaderId): Session
    requires HasRead(s, id)
  {
    WithRead(s, id, Some(ReadOf(s, id).(open := false)))
  }

  function CloseRecord(s: Session): Session {
    s.(life := s.life.(present := false, closed := s.life.closed + 1))
  }

  predicate Blocking(i: Instr) { i.Await? || i.Leave? || i.AwaitCleanup? }

  /** What one instruction comes to: the worker goes on, gives up, or lets go of the lock
      to await the cancellation of a read, after which it goes on or does it `again`. */
  datatype Act = Next(s: Session) | GiveUp(refused: Option<ReaderId>) | Wait(s: Session, id: ReaderId, again: bool)

  /** Taking down a read: refused with samples pending, given up when another worker has
      it in hand already. */
  function TakeDown(s: Session, id: ReaderId, again: bool): Act
    requires HasRead(s, id)
  {
    if ReadOf(s, id).samples != [] then GiveUp(Some(id))
    else if !ReadOf(s, id).open then GiveUp(None)
    else Wait(CloseRead(s, id), id, again)
  }

  function Perform(s: Session, i: Instr, env: nat -> Env): Act
    requires !Blocking(i)
  {
    match i
    case Dismiss(m) =>
      var d := Drain(s, m, env);
      if d.out.Blocked? then Wait(d.s, d.out.id, true) else Next(d.s)
    case Cancel(id) =>
      if HasRead(s, id) then TakeDown(s, id, false) else Next(s)
    case Detach(id) =>
      if HasRead(s, id) then TakeDown(s, id, true) else Next(s.(readers := s.readers - {id}))
    case NewRead(id, spec) =>
      if id !in s.readers then GiveUp(None)
      else
        var a := s.readers[id];
        Next(s.(readers := s.readers[id := a.(read := Some(FreshRead(a, spec)), forward := true)]))
    case ResetStreams => Next(s.(queue := []))
    case EndReset => Next(s.(life := s.life.(resetting := false)))
    case Dispose => Next(s.(life := s.life.(deleted := true)))
    case TryClose =>
      if s.life.present && s.life.Active() then Next(s.(life := s.life.(deleted := true))) else GiveUp(None)
    case FinishCleanup =>
      if !s.life.timedout then Next(s.(life := s.life.(cleaned := true)))
      else if s.life.present then Next(CloseRecord(s))
      else GiveUp(None)
  }

  function Run(s: Session, prog: seq<Instr>, env: nat -> Env): (p: Progress)
    ensures p.prog == [] || Blocking(p.prog[0])
    decreases |prog|
  {
    if prog == [] || Blocking(prog[0]) then Progress(s, prog, None) else
    match Perform(s, prog[0], env)
    case Next(s1) => Run(s1, prog[1..], env)
    case GiveUp(refused) => Progress(s, [], refused)
    case Wait(s1, id, again) => Progress(s1, [Await(id)] + (if again then prog else prog[1..]), None)
  }

  // ----- the steps -----

  datatype Step =
    | Attach(newId: ReaderId)
    | Data(id: ReaderId, sn: int, now: int, d: Delivery)
    | Expire(id: ReaderId, now: int)
    | Reply(stream: StreamId, msgSn: nat)
    | Release(i: nat)
    | ReadRequest(id: ReaderId, stream: StreamId, spec: ReadSpec)
    | DeleteReader(id: ReaderId)
    | DeleteClient
    | Timeout
    | Reset(order: seq<ReaderId>)
    | Cleanup(order: seq<ReaderId>)
    | Sweep(id: ReaderId)
    | Resume(w: nat)

  datatype Refusal = Refusal(who: Who, id: ReaderId)

  datatype Stepped = Stepped(sys: System, refused: Option<Refusal>)

  function Quiet(sys: System, s: Session): Stepped { Stepped(sys.(s := s), None) }

  function Refused(who: Who, id: Option<ReaderId>): Option<Refusal> {
    if id.Some? then Some(Refusal(who, id.value)) else None
  }

  function Launch(sys: System, s: Session, who: Who, prog: seq<Instr>, env: nat -> Env): Stepped {
    var p := Run(s, prog, env);
    Stepped(System(p.s, sys.ws + [Worker(who, p.prog)]), Refused(who, p.refused))
  }

  function Cancels(order: seq<ReaderId>): (p: seq<Instr>)
    ensures |p| == |order| && forall k :: 0 <= k < |p| ==> p[k] == Cancel(order[k])
  {
    if order == [] then [] else [Cancel(order[0])] + Cancels(order[1..])
  }

  function Detaches(order: seq<ReaderId>): (p: seq<Instr>)
    ensures |p| == |order| && forall k :: 0 <= k < |p| ==> p[k] == Detach(order[k])
  {
    if order == [] then [] else [Detach(order[0])] + Detaches(order[1..])
  }

  /** Only an active session is found by data, message, timer, open and close workers. */
  predicate Live(s: Session) { s.life.present && s.life.Active() }

  /** A client's messages are not heard any more once the client is disposed. */
  predicate Hears(s: Session) { Live(s) && !s.life.disposed }

  function ReadProgram(id: ReaderId, stream: StreamId, spec: ReadSpec): seq<Instr> {
    (if Reliable(stream) then [Dismiss(Match(Some(stream), id))] else []) + [Cancel(id), NewRead(id, spec)]
  }

  function DeleteProgram(id: ReaderId): seq<Instr> { [Dismiss(Match(None, id)), Cancel(id), Detach(id)] }

  function CloseProgram(): seq<Instr> { [Dismiss(ALL), Leave, TryClose, AwaitCleanup] }

  function ResetProgram(order: seq<ReaderId>): seq<Instr> { [Dismiss(ALL)] + ([ResetStreams] + Cancels(order) + [EndReset]) }

  function CleanupProgram(order: seq<ReaderId>): seq<Instr> { Cancels(order) + Detaches(order) + [FinishCleanup] }

  function Do(sys: System, step: Step, env: nat -> Env): Stepped {
    var s := sys.s;
    match step
    case Attach(id) =>
      if Live(s) && id !in s.readers && id != EVERY_READER then
        Quiet(sys, s.(readers := s.readers[id := Reader(None, 0, false, 0, 0)]))
      else Quiet(sys, s)
    case Data(id, sn, now, d) =>
      if Live(s) && HasRead(s, id) && ReadOf(s, id).open && !ReadOf(s, id).complete
         && (d.Sent? ==> NextOnStream(s.queue, s.readers[id].stream, d.sn)) then
        Quiet(sys, ProcessSample(s, id, sn, now, d).s)
      else Quiet(sys, s)
    case Expire(id, now) =>
      if Live(s) && HasRead(s, id) && ReadOf(s, id).open && IsComplete(ReadOf(s, id), now) then
        Quiet(sys, WithRead(s, id, Some(ReadOf(s, id).(complete := true))))
      else Quiet(sys, s)
    case Reply(stream, sn) =>
      if Live(s) && Reliable(stream) && NextOnStream(s.queue, stream, sn) then
        Quiet(sys, s.(queue := s.queue + [Message(stream, sn, false)]))
      else Quiet(sys, s)
    case Release(i) =>
      if Live(s) && i < |s.queue| then
        var r := ReleaseMessage(s, i, env);
        Launch(sys, r.s, Releaser, if r.out.Completed? then [Await(r.out.id)] else [], env)
      else Quiet(sys, s)
    case ReadRequest(id, stream, spec) =>
      if Hears(s) && id in s.readers then
        Launch(sys, s.(readers := s.readers[id := s.readers[id].(stream := stream, forward := false)]),
               Requester, ReadProgram(id, stream, spec), env)
      else Quiet(sys, s)
    case DeleteReader(id) =>
      if Hears(s) && id in s.readers then Launch(sys, s, Deleter, DeleteProgram(id), env) else Quiet(sys, s)
    case DeleteClient =>
      if Hears(s) then Launch(sys, s.(life := s.life.(disposed := true)), Closer, CloseProgram(), env)
      else Quiet(sys, s)
    case Timeout =>
      if Live(s) then
        Launch(sys, s.(life := s.life.(timedout := true, disposed := true)), Timer,
               (if s.life.disposed then [] else [Dismiss(ALL)]) + [Dispose], env)
      else Quiet(sys, s)
    case Reset(order) =>
      if Live(s) then Launch(sys, s.(life := s.life.(resetting := true)), Resetter, ResetProgram(order), env)
      else Quiet(sys, s)
    case Cleanup(order) =>
      if s.life.present && s.life.deleted && s.readers.Keys <= (set id | id in order) then
        Launch(sys, s, Cleaner, CleanupProgram(order), env)
      else Quiet(sys, s)
    case Sweep(id) =>
      if s.life.present && HasRead(s, id) && ReadOf(s, id).complete then
        Launch(sys, s, Sweeper,
               if ReadOf(s, id).samples != [] then [Dismiss(Match(Some(s.readers[id].stream), id))] else [Cancel(id)], env)
      else Quiet(sys, s)
    case Resume(w) => if w < |sys.ws| then DoResume(sys, w, env) else Quiet(sys, s)
  }

  function DoResume(sys: System, w: nat, env: nat -> Env): Stepped
    requires w < |sys.ws|
  {
    var s, who, prog := sys.s, sys.ws[w].who, sys.ws[w].prog;
    if prog == [] || !Blocking(prog[0]) then Quiet(sys, s)
    else if prog[0].AwaitCleanup? && !s.life.cleaned then Quiet(sys, s)
    else if !s.life.present then Stepped(System(s, sys.ws[w := Worker(who, [])]), None)
    else
      var s1 := match prog[0]
        case Await(id) => EndCancel(s, id)
        case AwaitCleanup => CloseRecord(s)
        case _ => s;
      var p := Run(s1, prog[1..], env);
      Stepped(System(p.s, sys.ws[w := Worker(who, p.prog)]), Refused(who, p.refused))
  }

  function Exec(sys: System, steps: seq<Step>, env: nat -> Env): System
    decreases |steps|
  {
    if steps == [] then sys else Exec(Do(sys, steps[0], env).sys, steps[1..], env)
  }

  const FRESH := Session(map[], [], 0, [], [], 0, [], Life(false, false, false, false, true, false, 0))

  const START := System(FRESH, [])
}
