/** The state of one client session as the two layers of the agent see it: the DDS
    layer's readers, reads and received-data buffers, and the XRCE layer's forward
    requests and reliable send queues. Every operation is a function from the state
    before to the state after; `ClientSession` runs the same operations in place. */
module SessionState {

  datatype Option<+T> = None | Some(value: T)

  type StreamId = nat

  type ReaderId = nat

  /** The invalid attached-resource id; as a filter it stands for every reader. */
  const EVERY_READER: ReaderId := 0

  predicate Reliable(stream: StreamId) { stream >= 0x80 }

  /** A received sample on loan: the buffer that holds it, the reader it came from
      and its reception sequence number. */
  datatype Received = Received(buf: nat, reader: ReaderId, sn: int)

  /** A read request. `open` says that it is registered with the DDS reader. */
  datatype Read = Read(
    samples: seq<Received>, rcvd: nat, max: nat, lastSample: int,
    start: int, lastTs: int, pace: nat, maxElapsed: nat,
    delayed: bool, available: bool, complete: bool, open: bool)

  /** An attached data reader, with the XRCE layer's state for it. */
  datatype Reader = Reader(
    read: Option<Read>, stream: StreamId, forward: bool,
    lastForwarded: int, lastReturned: int)

  /** A forward request: which loan travels in which reliable message. `loan` numbers
      the retentions; it identifies one even when its buffer is used again. */
  datatype Forward = Forward(data: Received, stream: StreamId, sn: nat, loan: nat)

  /** A message in the send queue of a reliable stream. */
  datatype Message = Message(stream: StreamId, sn: nat, data: bool)

  /** Life-cycle flags: `present` while the session record is in the table, `cleaned`
      once the cleanup worker has given its semaphore, `closed` counts the
      session-closed callbacks. */
  datatype Life = Life(
    deleted: bool, timedout: bool, resetting: bool, disposed: bool,
    present: bool, cleaned: bool, closed: nat)
  {
    predicate Active() { !deleted && !timedout && !resetting }
  }

  /** `lent` counts the loans made, `returned` lists the ones given back. */
  datatype Session = Session(
    readers: map<ReaderId, Reader>, pool: seq<nat>, made: nat,
    forwards: seq<Forward>, queue: seq<Message>,
    lent: nat, returned: seq<nat>, life: Life)

  /** What the clock and the resource table answer when a loan is given back. */
  datatype Env = Env(now: int, ok: bool)

  // ----- list operations -----

  function Remove<T>(xs: seq<T>, i: nat): (r: seq<T>)
    requires i < |xs|
    ensures |r| == |xs| - 1
  {
    xs[..i] + xs[i + 1..]
  }

  function SampleIndex(xs: seq<Received>, buf: nat): (i: nat)
    ensures i <= |xs|
    ensures i < |xs| ==> xs[i].buf == buf
    ensures forall k :: 0 <= k < i ==> xs[k].buf != buf
  {
    if xs == [] || xs[0].buf == buf then 0 else 1 + SampleIndex(xs[1..], buf)
  }

  predicate Carries(f: Forward, stream: StreamId, sn: nat) { f.stream == stream && f.sn == sn }

  function ForwardIndex(fs: seq<Forward>, stream: StreamId, sn: nat): (i: nat)
    ensures i <= |fs|
    ensures i < |fs| ==> Carries(fs[i], stream, sn)
    ensures forall k :: 0 <= k < i ==> !Carries(fs[k], stream, sn)
  {
    if fs == [] || Carries(fs[0], stream, sn) then 0 else 1 + ForwardIndex(fs[1..], stream, sn)
  }

  /** Which forward requests a dismissal is about. */
  datatype Match = Match(stream: Option<StreamId>, reader: ReaderId)

  predicate Matches(f: Forward, m: Match) {
    && (m.stream.Some? ==> m.stream.value == f.stream)
    && (m.reader != EVERY_READER ==> m.reader == f.data.reader)
  }

  function MatchIndex(fs: seq<Forward>, m: Match): (i: nat)
    ensures i <= |fs|
    ensures i < |fs| ==> Matches(fs[i], m)
    ensures forall k :: 0 <= k < i ==> !Matches(fs[k], m)
  {
    if fs == [] || Matches(fs[0], m) then 0 else 1 + MatchIndex(fs[1..], m)
  }

  predicate UpTo(msg: Message, stream: StreamId, sn: nat) { msg.stream == stream && msg.sn <= sn }

  function QueuedIndex(queue: seq<Message>, stream: StreamId, sn: nat): (i: nat)
    ensures i <= |queue|
    ensures i < |queue| ==> UpTo(queue[i], stream, sn)
    ensures forall k :: 0 <= k < i ==> !UpTo(queue[k], stream, sn)
  {
    if queue == [] || UpTo(queue[0], stream, sn) then 0 else 1 + QueuedIndex(queue[1..], stream, sn)
  }

  // ----- reads -----

  predicate Finite(r: Read) { r.maxElapsed != 0 || r.max > 0 }

  predicate IsComplete(r: Read, now: int) {
    && Finite(r)
    && (r.maxElapsed != 0 ==> now - r.start >= r.maxElapsed)
    && (r.max > 0 ==> r.rcvd >= r.max)
  }

  predicate HasRead(s: Session, id: ReaderId) { id in s.readers && s.readers[id].read.Some? }

  function ReadOf(s: Session, id: ReaderId): Read
    requires HasRead(s, id)
  {
    s.readers[id].read.value
  }

  function WithRead(s: Session, id: ReaderId, r: Option<Read>): Session
    requires id in s.readers
  {
    s.(readers := s.readers[id := s.readers[id].(read := r)])
  }

  function Max(a: int, b: int): int { if a < b then b else a }

  // ----- giving a loan back -----

  /** `Completed(id)`: the last pending sample of a complete read came back, so the read
      of reader `id` was taken off the DDS reader and its cancellation must be awaited. */
  datatype LoanResult = Failed | Kept | Completed(id: ReaderId)

  datatype Outcome = Outcome(s: Session, out: LoanResult)

  datatype Verdict = Fail | Keep | Finish

  datatype GivenBack = GivenBack(r: Read, v: Verdict)

  /** What the return of pending sample `i` makes of its read: the sample goes first, the
      rest only if clock and resource answer; a complete read with nothing else pending
      is taken off the DDS reader. */
  function GiveBack(r: Read, i: nat, e: Env): (g: GivenBack)
    requires i < |r.samples|
    ensures g.r.samples == Remove(r.samples, i)
    ensures g.r.open == (r.open && !g.v.Finish?)
    ensures g.v.Finish? ==> g.r.samples == []
  {
    var r1 := r.(samples := Remove(r.samples, i));
    if !e.ok then GivenBack(r1, Fail) else
    var r2 := r1.(rcvd := r1.rcvd + 1);
    if !IsComplete(r2, e.now) then GivenBack(r2, Keep) else
    var r3 := r2.(complete := true);
    if r3.samples != [] then GivenBack(r3, Keep)
    else if !r3.open then GivenBack(r3, Fail)
    else GivenBack(r3.(open := false), Finish)
  }

  function ReturnLoan(s: Session, d: Received, loan: nat, e: Env): Outcome {
    if !HasRead(s, d.reader) then Outcome(s, Failed) else
    var a := s.readers[d.reader];
    var i := SampleIndex(a.read.value.samples, d.buf);
    if i == |a.read.value.samples| then Outcome(s, Failed) else
    var g := GiveBack(a.read.value, i, e);
    var a1 := a.(read := Some(g.r), lastReturned := Max(a.lastReturned, d.sn));
    Outcome(
      s.(readers := s.readers[d.reader := a1], pool := s.pool + [d.buf], returned := s.returned + [loan]),
      match g.v case Fail => Failed case Keep => Kept case Finish => Completed(d.reader))
  }

  function DismissForward(s: Session, stream: StreamId, sn: nat, env: nat -> Env): Outcome {
    var j := ForwardIndex(s.forwards, stream, sn);
    if j == |s.forwards| then Outcome(s, Kept) else
    var f := s.forwards[j];
    ReturnLoan(s.(forwards := Remove(s.forwards, j)), f.data, f.loan, env(f.loan))
  }

  /** A message leaves the send queue, by ack, local loss or dismissal, and the XRCE
      session calls the listener for it. */
  function ReleaseMessage(s: Session, i: nat, env: nat -> Env): Outcome
    requires i < |s.queue|
  {
    DismissForward(s.(queue := Remove(s.queue, i)), s.queue[i].stream, s.queue[i].sn, env)
  }

  // ----- dismissing forward requests -----

  datatype DrainResult = Done | Stuck | Blocked(id: ReaderId)

  datatype Drained = Drained(s: Session, out: DrainResult)

  /** The dismissal loop up to its end or up to the first read that completes, where the
      worker lets go of the session to await the cancellation. */
  function Drain(s: Session, m: Match, env: nat -> Env): (d: Drained)
    ensures d.out.Done? ==> MatchIndex(d.s.forwards, m) == |d.s.forwards|
    ensures |d.s.queue| <= |s.queue| && (d.out.Blocked? ==> |d.s.queue| < |s.queue|)
    decreases |s.queue|
  {
    var g := MatchIndex(s.forwards, m);
    if g == |s.forwards| then Drained(s, Done) else
    var i := QueuedIndex(s.queue, s.forwards[g].stream, s.forwards[g].sn);
    if i == |s.queue| then Drained(s, Stuck) else
    var r := ReleaseMessage(s, i, env);
    if r.out.Completed? then Drained(r.s, Blocked(r.out.id)) else Drain(r.s, m, env)
  }

  /** The cancellation of a read comes through. */
  function EndCancel(s: Session, id: ReaderId): Session {
    if id in s.readers then WithRead(s, id, None) else s
  }

  /** The dismissal loop when nothing else runs while it waits. */
  function DrainAll(s: Session, m: Match, env: nat -> Env): Drained
    decreases |s.queue|
  {
    var d := Drain(s, m, env);
    if d.out.Blocked? then DrainAll(EndCancel(d.s, d.out.id), m, env) else d
  }

  // ----- a sample arrives -----

  /** What the upcall for one sample comes to: the sample cannot be converted or sent,
      there is no room for its message, it is taken but not forwarded (no read is set up
      yet, the client is gone, or the data is empty), or it is sent as message `sn`. */
  datatype Delivery = Broken | NoRoom | Unforwarded | Sent(sn: nat)

  datatype SampleResult = OldSample | TryAgain(delay: int) | SampleError | HandedUp

  datatype Processed = Processed(s: Session, out: SampleResult)

  /** Numbers on one stream only go up. */
  predicate NextOnStream(queue: seq<Message>, stream: StreamId, sn: nat) {
    forall i :: 0 <= i < |queue| && queue[i].stream == stream ==> queue[i].sn < sn
  }

  /** The buffer a new sample goes into: the first of the reuse pool, or a new one. */
  function TakeBuffer(s: Session): (Session, nat) {
    if s.pool != [] then (s.(pool := s.pool[1..]), s.pool[0])
    else (s.(made := s.made + 1), s.made)
  }

  /** The delay before a sample for which there was no room is tried again: one millisecond. */
  const ROOM_DELAY: int := 1

  function ProcessSample(s: Session, id: ReaderId, sn: int, now: int, d: Delivery): Processed
    requires HasRead(s, id)
  {
    var a := s.readers[id];
    var r := a.read.value;
    if r.lastSample >= sn then Processed(s, OldSample)
    else if r.pace != 0 && now - r.lastTs < r.pace then
      Processed(s, TryAgain(r.pace - (now - r.lastTs)))
    else
      var (s1, buf) := TakeBuffer(s);
      var data := Received(buf, id, sn);
      if d.Broken? then Processed(s1.(pool := s1.pool + [buf]), SampleError)
      else if !a.forward || s.life.disposed || d.Unforwarded? then
        Processed(s1.(readers := s.readers[id := Counted(a, sn, now)]), HandedUp)
      else if d.NoRoom? then Processed(s1.(pool := s1.pool + [buf]), TryAgain(ROOM_DELAY))
      else if !Reliable(a.stream) then
        Processed(s1.(readers := s.readers[id := Counted(a, sn, now)]), HandedUp)
      else
        Processed(s1.(readers := s.readers[id := Retained(a, data, now)],
                      forwards := s.forwards + [Forward(data, a.stream, d.sn, s.lent)],
                      queue := s.queue + [Message(a.stream, d.sn, true)],
                      lent := s.lent + 1), HandedUp)
  }

  function Advanced(r: Read, sn: int, now: int): Read {
    r.(lastSample := sn, lastTs := now)
  }

  /** A sample that was taken without being retained counts as returned at once. */
  function Counted(a: Reader, sn: int, now: int): Reader
    requires a.read.Some?
  {
    var r := Advanced(a.read.value, sn, now);
    a.(read := Some(r.(rcvd := r.rcvd + 1)), lastForwarded := sn, lastReturned := sn)
  }

  function Retained(a: Reader, data: Received, now: int): Reader
    requires a.read.Some?
  {
    var r := Advanced(a.read.value, data.sn, now);
    a.(read := Some(r.(samples := r.samples + [data])), lastForwarded := data.sn)
  }
}
