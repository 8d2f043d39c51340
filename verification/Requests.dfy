/** The buffers of a client's requests: who has one, when it goes back to the pool, and how
    many STATUS messages answer it. */
module Requests {
  import opened SessionState

  datatype Kind = Create | DeleteEntity | DeleteClient | Write | Read

  /** Requests are numbered as they are allocated. */
  type RequestId = nat

  /** A handler at work on a request; `owns` until it hands the request over. */
  datatype Handler = Handler(request: RequestId, owns: bool)

  /** `kinds`, `wanted` and `reply` are indexed by request: what it is, whether an answer was
      asked for, and whether one is still to be made. `readers` holds the request of each reader
      state, `dispose` the one that waits for the session to be closed; `statuses`, `unmade` and
      `returned` list the STATUS messages made, the ones that could not be made and the buffers
      given back. */
  datatype Client = Client(
    kinds: seq<Kind>, wanted: seq<bool>, reply: seq<bool>, running: seq<Handler>,
    readers: map<ReaderId, Option<RequestId>>, dispose: Option<RequestId>, disposed: bool,
    statuses: seq<RequestId>, unmade: seq<RequestId>, returned: seq<RequestId>)

  /** How a reply goes: it cannot be made, so that the flag stays; it fails in the sending, which
      uses it up all the same; or it is sent. */
  datatype Sending = Unmade | Lost | Sent

  predicate Known(c: Client, n: RequestId) { n < |c.kinds| && n < |c.reply| }

  function Reply(c: Client, n: RequestId, how: Sending): Client
    requires Known(c, n)
  {
    if !c.reply[n] then c
    else if how.Unmade? then c.(unmade := c.unmade + [n])
    else c.(reply := c.reply[n := false], statuses := c.statuses + [n])
  }

  function Return(c: Client, n: RequestId): Client { c.(returned := c.returned + [n]) }

  function HandedOver(c: Client, h: nat): Client
    requires h < |c.running|
  {
    c.(running := c.running[h := c.running[h].(owns := false)])
  }

  function Left(c: Client, h: nat): Client
    requires h < |c.running|
  {
    c.(running := Remove(c.running, h))
  }

  datatype Step =
    | Begin(kind: Kind, reply: bool)
    | Answer(h: nat, how: Sending)
    | Written(h: nat)
    | StoreRead(h: nat, reader: ReaderId)
    | ReadCreated(reader: ReaderId, how: Sending)
    | Dispose(h: nat)
    | Finish(h: nat, ok: bool, how: Sending)
    | NewReader(reader: ReaderId)
    | NoReader(reader: ReaderId)
    | TimedOut
    | SessionClosed(how: Sending)

  function Begun(c: Client, kind: Kind, reply: bool): Client {
    c.(kinds := c.kinds + [kind], wanted := c.wanted + [reply], reply := c.reply + [reply],
       running := c.running + [Handler(|c.kinds|, true)])
  }

  predicate At(c: Client, h: nat, kind: Kind) {
    h < |c.running| && Known(c, c.running[h].request) && c.kinds[c.running[h].request] == kind
  }

  function Do(c: Client, step: Step): Client {
    match step
    case Begin(kind, reply) =>
      if c.disposed then c else Begun(c, kind, reply)
    case Answer(h, how) =>
      if (At(c, h, Create) || At(c, h, DeleteEntity) || At(c, h, Write)) && c.running[h].owns
      then Reply(c, c.running[h].request, how) else c
    case Written(h) =>
      if At(c, h, Write) && c.running[h].owns then HandedOver(Return(c, c.running[h].request), h) else c
    case StoreRead(h, r) =>
      if At(c, h, Kind.Read) && c.running[h].owns && r in c.readers then
        var c1 := if c.readers[r].Some? then Return(c, c.readers[r].value) else c;
        HandedOver(c1.(readers := c1.readers[r := Some(c.running[h].request)]), h)
      else c
    case ReadCreated(r, how) =>
      if r in c.readers && c.readers[r].Some? && Known(c, c.readers[r].value) && c.reply[c.readers[r].value] then
        var c1 := Reply(c, c.readers[r].value, how);
        if how.Sent? then c1 else c1.(readers := c1.readers[r := None])
      else c
    case Dispose(h) =>
      if At(c, h, DeleteClient) && c.running[h].owns && !c.disposed then
        var n := c.running[h].request;
        HandedOver(c.(disposed := true, dispose := Some(n), reply := c.reply[n := false]), h)
      else c
    case Finish(h, ok, how) =>
      if h < |c.running| && Known(c, c.running[h].request) then Epilogue(c, h, ok, how) else c
    case NewReader(r) => c.(readers := c.readers[r := None])
    case NoReader(r) => c.(readers := c.readers - {r})
    case TimedOut => c.(disposed := true)
    case SessionClosed(how) =>
      if c.disposed && c.dispose.Some? && Known(c, c.dispose.value) then
        var n := c.dispose.value;
        Return(Reply(c.(dispose := None, reply := c.reply[n := true]), n, how), n)
      else c
  }

  /** The end of the handling of a submessage. A failed READ lets go of its request; otherwise it
      is answered if that has not been done, and returned unless it was READ or WRITE_DATA and
      went well, or a DELETE of the client. */
  function Epilogue(c: Client, h: nat, ok: bool, how: Sending): Client
    requires h < |c.running| && Known(c, c.running[h].request)
  {
    var n := c.running[h].request;
    var kind := c.kinds[n];
    var went := if kind.Write? then !c.running[h].owns else ok;
    var c1 := Left(c, h);
    if kind.Read? && !went then c1
    else
      var c2 := Reply(c1, n, how);
      if (!went || (!kind.Read? && !kind.Write?)) && !kind.DeleteClient? then Return(c2, n) else c2
  }

  function Exec(c: Client, steps: seq<Step>): Client
    decreases |steps|
  {
    if steps == [] then c else Exec(Do(c, steps[0]), steps[1..])
  }

  const FRESH := Client([], [], [], [], map[], None, false, [], [], [])

  // ----- one owner -----

  predicate NoTwice(xs: seq<RequestId>) { forall i, j :: 0 <= i < j < |xs| ==> xs[i] != xs[j] }

  /** The running handlers' requests differ, and so do those in reader states. */
  ghost predicate Separate(c: Client) {
    && |c.kinds| == |c.reply|
    && (forall h :: 0 <= h < |c.running| ==> c.running[h].request < |c.kinds|)
    && (forall g, h :: 0 <= g < h < |c.running| ==> c.running[g].request != c.running[h].request)
    && (forall r :: r in c.readers && c.readers[r].Some? ==> c.readers[r].value < |c.kinds|)
    && (forall r, q :: r in c.readers && q in c.readers && r != q && c.readers[r].Some? ==> c.readers[r] != c.readers[q])
    && (c.dispose.Some? ==> c.dispose.value < |c.kinds| && c.disposed)
    && (forall n :: n in c.returned ==> n < |c.kinds|)
  }

  /** A request in the hands of a handler is in no reader state, not in the dispose slot and not
      returned; one in a reader state neither in the dispose slot nor returned; nothing was
      returned twice. */
  ghost predicate OneOwner(c: Client) {
    && (forall h, r :: 0 <= h < |c.running| && c.running[h].owns && r in c.readers ==> c.readers[r] != Some(c.running[h].request))
    && (forall h :: 0 <= h < |c.running| && c.running[h].owns ==> c.dispose != Some(c.running[h].request))
    && (forall h :: 0 <= h < |c.running| && c.running[h].owns ==> c.running[h].request !in c.returned)
    && (forall r :: r in c.readers && c.readers[r].Some? ==> c.dispose != c.readers[r] && c.readers[r].value !in c.returned)
    && (c.dispose.Some? ==> c.dispose.value !in c.returned)
    && NoTwice(c.returned)
  }

  /** A handler that still runs has not returned its request unless it handed it over, and only
      READ, WRITE_DATA and DELETE of the client hand over. */
  ghost predicate HandedByKind(c: Client) {
    |c.kinds| == |c.reply| &&
    forall h :: 0 <= h < |c.running| && c.running[h].request < |c.kinds| && !c.running[h].owns ==>
      c.kinds[c.running[h].request].Read? || c.kinds[c.running[h].request].Write? || c.kinds[c.running[h].request].DeleteClient?
  }

  /** A handler of a DELETE of the client that has not handed its request over. */
  predicate Disposer(c: Client, h: Handler) {
    h.owns && h.request < |c.kinds| && c.kinds[h.request] == DeleteClient
  }

  /** An answered request is not to be answered again; the one in the dispose slot, or still to
      be put there, has not been answered. */
  ghost predicate OneStatus(c: Client) {
    && |c.kinds| == |c.reply|
    && NoTwice(c.statuses)
    && (forall n :: n in c.statuses ==> n < |c.kinds| && !c.reply[n])
    && (c.dispose.Some? ==> c.dispose.value < |c.kinds| && !c.reply[c.dispose.value] && c.dispose.value !in c.statuses)
    && (forall h :: 0 <= h < |c.running| && Disposer(c, c.running[h]) ==> c.running[h].request !in c.statuses)
  }

  ghost predicate Inv(c: Client) { Separate(c) && OneOwner(c) && HandedByKind(c) && OneStatus(c) }

  lemma ReplyInv(c: Client, n: RequestId, how: Sending)
    requires Inv(c) && Known(c, n)
    requires forall h :: 0 <= h < |c.running| && Disposer(c, c.running[h]) ==> c.running[h].request != n
    ensures Inv(Reply(c, n, how))
  {
    var d := Reply(c, n, how);
    if c.reply[n] && !how.Unmade? {
      assert n !in c.statuses;
    }
  }

  lemma BeginSeparate(c: Client, kind: Kind, reply: bool)
    requires Separate(c) && OneOwner(c)
    ensures Separate(Begun(c, kind, reply)) && OneOwner(Begun(c, kind, reply))
  {
  }

  lemma BeginStatus(c: Client, kind: Kind, reply: bool)
    requires Separate(c) && HandedByKind(c) && OneStatus(c)
    ensures HandedByKind(Begun(c, kind, reply)) && OneStatus(Begun(c, kind, reply))
  {
    var d := Begun(c, kind, reply);
    forall h | 0 <= h < |d.running| && Disposer(d, d.running[h])
      ensures d.running[h].request !in d.statuses
    {
      assert h < |c.running| ==> Disposer(c, c.running[h]);
    }
  }

  lemma BeginInv(c: Client, kind: Kind, reply: bool)
    requires Inv(c)
    ensures Inv(Do(c, Begin(kind, reply)))
  {
    BeginSeparate(c, kind, reply);
    BeginStatus(c, kind, reply);
  }

  /** A request that nobody else has may go back to the pool when its handler lets go of it. */
  lemma HandOverInv(c: Client, h: nat)
    requires Inv(c) && h < |c.running| && c.running[h].owns && !At(c, h, Create) && !At(c, h, DeleteEntity)
    ensures Inv(HandedOver(c, h))
    ensures forall r :: r in c.readers ==> c.readers[r] != Some(c.running[h].request)
  {
    var d := HandedOver(c, h);
  }

  ghost predicate Unowned(c: Client, n: RequestId) {
    && (forall h :: 0 <= h < |c.running| && c.running[h].owns ==> c.running[h].request != n)
    && (forall r :: r in c.readers ==> c.readers[r] != Some(n)) && c.dispose != Some(n) && n !in c.returned
  }

  lemma ReturnInv(c: Client, n: RequestId)
    requires Inv(c) && n < |c.kinds| && Unowned(c, n)
    ensures Inv(Return(c, n))
  {
  }

  lemma EmptyReaderInv(c: Client, r: ReaderId)
    requires Inv(c)
    ensures Inv(c.(readers := c.readers[r := None]))
  {
  }

  lemma FillReaderInv(c: Client, r: ReaderId, n: RequestId)
    requires Inv(c) && n < |c.kinds| && Unowned(c, n)
    ensures Inv(c.(readers := c.readers[r := Some(n)]))
  {
  }

  /** The reader state without its request, which goes back to the pool. */
  function Vacated(c: Client, r: ReaderId): Client
    requires r in c.readers
  {
    var c0 := c.(readers := c.readers[r := None]);
    if c.readers[r].Some? then Return(c0, c.readers[r].value) else c0
  }

  lemma VacatedInv(c: Client, r: ReaderId)
    requires Inv(c) && r in c.readers
    ensures Inv(Vacated(c, r))
  {
    EmptyReaderInv(c, r);
    if c.readers[r].Some? {
      ReturnInv(c.(readers := c.readers[r := None]), c.readers[r].value);
    }
  }

  lemma HandOverFrees(c: Client, h: nat)
    requires Inv(c) && h < |c.running| && c.running[h].owns && !At(c, h, Create) && !At(c, h, DeleteEntity)
    ensures Inv(HandedOver(c, h)) && Unowned(HandedOver(c, h), c.running[h].request)
  {
    HandOverInv(c, h);
  }

  /** A READ stores its request in the reader state and returns the one that was there. */
  lemma StoreInv(c: Client, h: nat, r: ReaderId)
    requires Inv(c) && At(c, h, Kind.Read) && c.running[h].owns && r in c.readers
    ensures Inv(Do(c, StoreRead(h, r)))
  {
    var n := c.running[h].request;
    VacatedInv(c, r);
    var c1 := Vacated(c, r);
    HandOverFrees(c1, h);
    FillReaderInv(HandedOver(c1, h), r, n);
    StoreIs(c, h, r);
  }

  lemma StoreIs(c: Client, h: nat, r: ReaderId)
    requires At(c, h, Kind.Read) && c.running[h].owns && r in c.readers
    ensures var d := HandedOver(Vacated(c, r), h); Do(c, StoreRead(h, r)) == d.(readers := d.readers[r := Some(c.running[h].request)])
  {
    assert c.readers[r := None][r := Some(c.running[h].request)] == c.readers[r := Some(c.running[h].request)];
  }

  lemma CreatedInv(c: Client, r: ReaderId, how: Sending)
    requires Inv(c) && r in c.readers && c.readers[r].Some?
    ensures Inv(Do(c, ReadCreated(r, how)))
  {
    var n := c.readers[r].value;
    ReplyInv(c, n, how);
    EmptyReaderInv(Reply(c, n, how), r);
  }

  lemma DisposeInv(c: Client, h: nat)
    requires Inv(c) && At(c, h, DeleteClient) && c.running[h].owns && !c.disposed
    ensures Inv(Do(c, Dispose(h)))
  {
    HandOverInv(c, h);
    var n := c.running[h].request;
    var d := Do(c, Dispose(h));
    assert Disposer(c, c.running[h]);
    forall g | 0 <= g < |d.running| && Disposer(d, d.running[g])
      ensures d.running[g].request !in d.statuses
    {
      assert Disposer(c, c.running[g]);
    }
  }

  /** WRITE_DATA that went well returns its request at once. */
  lemma WrittenInv(c: Client, h: nat)
    requires Inv(c) && At(c, h, Write) && c.running[h].owns
    ensures Inv(Do(c, Written(h)))
  {
    HandOverFrees(c, h);
    ReturnInv(HandedOver(c, h), c.running[h].request);
    assert HandedOver(Return(c, c.running[h].request), h) == Return(HandedOver(c, h), c.running[h].request);
  }

  lemma LeftHandlers(c: Client, h: nat)
    requires h < |c.running|
    ensures var d := Left(c, h); forall g :: 0 <= g < |d.running| ==> d.running[g] == c.running[if g < h then g else g + 1]
  {
  }

  lemma LeaveSeparate(c: Client, h: nat)
    requires Separate(c) && h < |c.running|
    ensures Separate(Left(c, h))
    ensures var d := Left(c, h); forall g :: 0 <= g < |d.running| ==> d.running[g].request != c.running[h].request
  {
    LeftHandlers(c, h);
  }

  lemma LeaveOwner(c: Client, h: nat)
    requires OneOwner(c) && HandedByKind(c) && h < |c.running|
    ensures OneOwner(Left(c, h)) && HandedByKind(Left(c, h))
  {
    LeftHandlers(c, h);
  }

  lemma LeaveStatus(c: Client, h: nat)
    requires OneStatus(c) && h < |c.running|
    ensures OneStatus(Left(c, h))
  {
    LeftHandlers(c, h);
    var d := Left(c, h);
    forall g | 0 <= g < |d.running| && Disposer(d, d.running[g])
      ensures d.running[g].request !in d.statuses
    {
      assert Disposer(c, c.running[if g < h then g else g + 1]);
    }
  }

  lemma LeaveInv(c: Client, h: nat)
    requires Inv(c) && h < |c.running|
    ensures Inv(Left(c, h)) && (c.running[h].owns ==> Unowned(Left(c, h), c.running[h].request))
    ensures var d := Left(c, h); forall g :: 0 <= g < |d.running| ==> d.running[g].request != c.running[h].request
  {
    LeaveSeparate(c, h);
    LeaveOwner(c, h);
    LeaveStatus(c, h);
  }

  lemma ReplyUnowned(c: Client, n: RequestId, how: Sending)
    requires Known(c, n) && Unowned(c, n)
    ensures Unowned(Reply(c, n, how), n)
  {
  }

  /** The end of a handler returns a request only while the handler has it. */
  lemma FinishInv(c: Client, h: nat, ok: bool, how: Sending)
    requires Inv(c) && h < |c.running|
    ensures Inv(Epilogue(c, h, ok, how))
  {
    var n := c.running[h].request;
    var c1 := Left(c, h);
    LeaveInv(c, h);
    ReplyInv(c1, n, how);
    if c.running[h].owns {
      ReplyUnowned(c1, n, how);
      ReturnInv(Reply(c1, n, how), n);
    }
  }

  lemma AnswerReturnInv(c: Client, n: RequestId, how: Sending)
    requires Inv(c) && Known(c, n) && Unowned(c, n)
    ensures Inv(Return(Reply(c, n, how), n))
  {
    ReplyInv(c, n, how);
    ReplyUnowned(c, n, how);
    ReturnInv(Reply(c, n, how), n);
  }

  lemma CloseInv(c: Client, how: Sending)
    requires Inv(c) && c.dispose.Some?
    ensures Inv(Do(c, SessionClosed(how)))
  {
    Vacate(c);
    AnswerReturnInv(c.(dispose := None, reply := c.reply[c.dispose.value := true]), c.dispose.value, how);
  }

  lemma Vacate(c: Client)
    requires Inv(c) && c.dispose.Some?
    ensures var c1 := c.(dispose := None, reply := c.reply[c.dispose.value := true]); Inv(c1) && Unowned(c1, c.dispose.value)
  {
  }

  lemma StepInv(c: Client, step: Step)
    requires Inv(c)
    ensures Inv(Do(c, step))
  {
    match step {
      case Begin(kind, reply) => BeginInv(c, kind, reply);
      case Answer(h, how) =>
        if Do(c, step) != c {
          ReplyInv(c, c.running[h].request, how);
        }
      case Written(h) =>
        if Do(c, step) != c {
          WrittenInv(c, h);
        }
      case StoreRead(h, r) =>
        if Do(c, step) != c {
          StoreInv(c, h, r);
        }
      case ReadCreated(r, how) =>
        if Do(c, step) != c {
          CreatedInv(c, r, how);
        }
      case Dispose(h) =>
        if Do(c, step) != c {
          DisposeInv(c, h);
        }
      case Finish(h, ok, how) =>
        if Do(c, step) != c {
          FinishInv(c, h, ok, how);
        }
      case NewReader(r) => EmptyReaderInv(c, r);
      case NoReader(r) => NoReaderInv(c, r);
      case TimedOut =>
      case SessionClosed(how) =>
        if Do(c, step) != c {
          CloseInv(c, how);
        }
    }
  }

  lemma NoReaderInv(c: Client, r: ReaderId)
    requires Inv(c)
    ensures Inv(c.(readers := c.readers - {r}))
  {
  }

  /** Every request but those of READ and of DELETE of the client is in its handler's hands or
      back in the pool. */
  ghost predicate NoneForgotten(c: Client) {
    forall n :: 0 <= n < |c.kinds| && !c.kinds[n].Read? && !c.kinds[n].DeleteClient? ==>
      n in c.returned || exists h :: 0 <= h < |c.running| && c.running[h] == Handler(n, true)
  }

  /** The end of a handler takes it off and returns its request, if it still has one to return. */
  lemma EpilogueIs(c: Client, h: nat, ok: bool, how: Sending)
    requires h < |c.running| && Known(c, c.running[h].request)
    ensures var d := Epilogue(c, h, ok, how);
            var n, kind := c.running[h].request, c.kinds[c.running[h].request];
            && d.running == Remove(c.running, h) && d.kinds == c.kinds
            && (forall m :: m in c.returned ==> m in d.returned)
            && (c.running[h].owns && !kind.Read? && !kind.DeleteClient? ==> n in d.returned)
  {
  }

  lemma LeftForgetsNone(c: Client, h: nat, n: nat)
    requires h < |c.running| && c.running[h].request != n
    requires exists g :: 0 <= g < |c.running| && c.running[g] == Handler(n, true)
    ensures exists g :: 0 <= g < |Remove(c.running, h)| && Remove(c.running, h)[g] == Handler(n, true)
  {
    var g :| 0 <= g < |c.running| && c.running[g] == Handler(n, true);
    assert Remove(c.running, h)[if g < h then g else g - 1] == Handler(n, true);
  }

  lemma FinishForgetsNone(c: Client, h: nat, ok: bool, how: Sending)
    requires Separate(c) && NoneForgotten(c) && h < |c.running|
    ensures NoneForgotten(Epilogue(c, h, ok, how))
  {
    var d := Epilogue(c, h, ok, how);
    EpilogueIs(c, h, ok, how);
    forall n | 0 <= n < |d.kinds| && !d.kinds[n].Read? && !d.kinds[n].DeleteClient? && n !in d.returned
      ensures exists g :: 0 <= g < |d.running| && d.running[g] == Handler(n, true)
    {
      var g :| 0 <= g < |c.running| && c.running[g] == Handler(n, true);
      LeftForgetsNone(c, h, n);
    }
  }

  lemma HandOverForgetsNone(c: Client, h: nat)
    requires NoneForgotten(c) && h < |c.running| && c.running[h].request < |c.kinds|
    requires c.running[h].request in c.returned || c.kinds[c.running[h].request].Read? || c.kinds[c.running[h].request].DeleteClient?
    ensures NoneForgotten(HandedOver(c, h))
  {
    var d := HandedOver(c, h);
    forall n | 0 <= n < |d.kinds| && !d.kinds[n].Read? && !d.kinds[n].DeleteClient? && n !in d.returned
      ensures exists g :: 0 <= g < |d.running| && d.running[g] == Handler(n, true)
    {
      var g :| 0 <= g < |c.running| && c.running[g] == Handler(n, true);
      assert d.running[g] == c.running[g];
    }
  }

  lemma BeginForgetsNone(c: Client, kind: Kind, reply: bool)
    requires NoneForgotten(c)
    ensures NoneForgotten(Do(c, Begin(kind, reply)))
  {
    var d := Do(c, Begin(kind, reply));
    forall n | 0 <= n < |d.kinds| && !d.kinds[n].Read? && !d.kinds[n].DeleteClient? && n !in d.returned
      ensures exists g :: 0 <= g < |d.running| && d.running[g] == Handler(n, true)
    {
      if n == |c.kinds| {
        assert d.running[|c.running|] == Handler(n, true);
      } else {
        var g :| 0 <= g < |c.running| && c.running[g] == Handler(n, true);
        assert d.running[g] == c.running[g];
      }
    }
  }

  /** What keeps handlers, kinds and what was returned forgets none. */
  lemma SameForgetsNone(c: Client, d: Client)
    requires NoneForgotten(c) && d.running == c.running && d.kinds == c.kinds && forall n :: n in c.returned ==> n in d.returned
    ensures NoneForgotten(d)
  {
  }

  lemma QuietForgetsNone(c: Client, step: Step)
    requires NoneForgotten(c)
    requires step.Answer? || step.ReadCreated? || step.NewReader? || step.NoReader? || step.TimedOut? || step.SessionClosed?
    ensures NoneForgotten(Do(c, step))
  {
    SameForgetsNone(c, Do(c, step));
  }

  lemma WrittenForgetsNone(c: Client, h: nat)
    requires NoneForgotten(c)
    ensures NoneForgotten(Do(c, Written(h)))
  {
    if Do(c, Written(h)) != c {
      SameForgetsNone(c, Return(c, c.running[h].request));
      HandOverForgetsNone(Return(c, c.running[h].request), h);
    }
  }

  lemma StoreForgetsNone(c: Client, h: nat, r: ReaderId)
    requires NoneForgotten(c)
    ensures NoneForgotten(Do(c, StoreRead(h, r)))
  {
    if Do(c, StoreRead(h, r)) != c {
      SameForgetsNone(c, Vacated(c, r));
      HandOverForgetsNone(Vacated(c, r), h);
      StoreIs(c, h, r);
      SameForgetsNone(HandedOver(Vacated(c, r), h), Do(c, StoreRead(h, r)));
    }
  }

  lemma DisposeForgetsNone(c: Client, h: nat)
    requires NoneForgotten(c)
    ensures NoneForgotten(Do(c, Dispose(h)))
  {
    if Do(c, Dispose(h)) != c {
      HandOverForgetsNone(c, h);
      SameForgetsNone(HandedOver(c, h), Do(c, Dispose(h)));
    }
  }

  lemma StepForgetsNone(c: Client, step: Step)
    requires Inv(c) && NoneForgotten(c)
    ensures NoneForgotten(Do(c, step))
  {
    match step {
      case Begin(kind, reply) => BeginForgetsNone(c, kind, reply);
      case Written(h) => WrittenForgetsNone(c, h);
      case StoreRead(h, r) => StoreForgetsNone(c, h, r);
      case Dispose(h) => DisposeForgetsNone(c, h);
      case Finish(h, ok, how) =>
        if Do(c, step) != c {
          FinishForgetsNone(c, h, ok, how);
        }
      case _ => QuietForgetsNone(c, step);
    }
  }

  lemma {:induction false} RunForgetsNone(c: Client, steps: seq<Step>)
    requires Inv(c) && NoneForgotten(c)
    ensures NoneForgotten(Exec(c, steps))
    decreases |steps|
  {
    if steps != [] {
      StepInv(c, steps[0]);
      StepForgetsNone(c, steps[0]);
      RunForgetsNone(Do(c, steps[0]), steps[1..]);
    }
  }

  /** Once no handler runs, all requests but READ and DELETE of the client are back in the pool. */
  lemma AllBackWhenIdle(steps: seq<Step>)
    requires Exec(FRESH, steps).running == []
    ensures var c := Exec(FRESH, steps);
            forall n :: 0 <= n < |c.kinds| && !c.kinds[n].Read? && !c.kinds[n].DeleteClient? ==> n in c.returned
  {
    RunForgetsNone(FRESH, steps);
  }

  lemma {:induction false} RunInv(c: Client, steps: seq<Step>)
    requires Inv(c)
    ensures Inv(Exec(c, steps))
    decreases |steps|
  {
    if steps != [] {
      StepInv(c, steps[0]);
      RunInv(Do(c, steps[0]), steps[1..]);
    }
  }

  /** Over any run, with handlers, session close and timeout interleaved in any way: no request
      is returned twice or answered twice, and none is returned while a handler, a reader
      state or the dispose slot still has it. */
  lemma ReturnedOnceAnsweredOnce(steps: seq<Step>)
    ensures var c := Exec(FRESH, steps);
            && NoTwice(c.returned) && NoTwice(c.statuses) && OneOwner(c)
            && forall n :: n in c.statuses ==> n < |c.reply| && !c.reply[n]
  {
    RunInv(FRESH, steps);
  }

  // ----- every answer that was asked for -----

  /** The end of a handler makes the STATUS that is still to be made, unless a READ failed or the
      message cannot be made. It returns the request of a CREATE or DELETE of an entity, and that of
      a WRITE_DATA whose handler still has it, and no other. */
  lemma FinishAnswers(c: Client, h: nat, ok: bool, how: Sending)
    requires h < |c.running| && Known(c, c.running[h].request)
    ensures var n, d := c.running[h].request, Epilogue(c, h, ok, how);
            var kind := c.kinds[n];
            && d.statuses == c.statuses + (if c.reply[n] && !how.Unmade? && (kind.Read? ==> ok) then [n] else [])
            && d.returned == c.returned
                             + (if kind.Create? || kind.DeleteEntity? || (kind.Write? && c.running[h].owns) then [n] else [])
  {
  }

  predicate InHand(c: Client, n: RequestId) { exists h :: 0 <= h < |c.running| && c.running[h].request == n }

  /** Its answer was made, or could not be. */
  predicate Settled(c: Client, n: RequestId) { n in c.statuses || n in c.unmade }

  /** READ apart, and the DELETE of the client, whose answer waits for the session to be closed. */
  predicate Plain(c: Client, n: RequestId) {
    n < |c.kinds| && !c.kinds[n].Read? && !c.kinds[n].DeleteClient?
  }

  /** Of a request whose answer is not settled the answer is still to be made, by the handler that
      runs, if it was asked for; and no answer was made, or is to be made, that was not asked for. */
  ghost predicate AnswersExact(c: Client) {
    && |c.kinds| == |c.wanted| == |c.reply| && (forall n: RequestId :: n in c.unmade ==> n < |c.kinds|)
    && (c.dispose.Some? ==> c.dispose.value < |c.kinds| && c.kinds[c.dispose.value].DeleteClient?)
    && (forall n: RequestId :: Plain(c, n) && c.wanted[n] && !Settled(c, n) ==> c.reply[n] && InHand(c, n))
    && (forall n: RequestId :: Plain(c, n) && (c.reply[n] || Settled(c, n)) ==> c.wanted[n])
  }

  lemma BegunAnswers(c: Client, kind: Kind, reply: bool)
    requires Inv(c) && AnswersExact(c)
    ensures AnswersExact(Begun(c, kind, reply))
  {
    var d := Begun(c, kind, reply);
    assert d.running[|c.running|].request == |c.kinds|;
    forall n: RequestId | Plain(d, n) && d.wanted[n] && !Settled(d, n)
      ensures d.reply[n] && InHand(d, n)
    {
      if n < |c.kinds| {
        assert Plain(c, n);
        var h :| 0 <= h < |c.running| && c.running[h].request == n;
        assert d.running[h] == c.running[h];
      }
    }
    forall n: RequestId | Plain(d, n) && (d.reply[n] || Settled(d, n))
      ensures d.wanted[n]
    {
      assert n < |c.kinds| ==> Plain(c, n);
    }
  }

  lemma ReplyAnswers(c: Client, n: RequestId, how: Sending)
    requires AnswersExact(c) && Known(c, n)
    ensures AnswersExact(Reply(c, n, how)) && (Plain(c, n) && c.wanted[n] ==> Settled(Reply(c, n, how), n))
  {
    var d := Reply(c, n, how);
    forall m: RequestId | Plain(d, m)
      ensures d.wanted[m] && !Settled(d, m) ==> d.reply[m] && InHand(d, m)
      ensures d.reply[m] || Settled(d, m) ==> d.wanted[m]
    {
      assert Plain(c, m) && (InHand(c, m) ==> InHand(d, m));
    }
  }

  /** Requests whose answer is not settled stay in hand, and no answer changes. */
  lemma SameAnswers(c: Client, d: Client)
    requires AnswersExact(c) && d.kinds == c.kinds && d.wanted == c.wanted && d.statuses == c.statuses && d.unmade == c.unmade
    requires |d.reply| == |c.reply| && forall n: RequestId :: Plain(c, n) ==> d.reply[n] == c.reply[n]
    requires d.dispose.Some? ==> d.dispose.value < |d.kinds| && d.kinds[d.dispose.value].DeleteClient?
    requires forall n: RequestId :: Plain(c, n) && c.wanted[n] && !Settled(c, n) && InHand(c, n) ==> InHand(d, n)
    ensures AnswersExact(d)
  {
    assert forall n: RequestId :: Plain(d, n) ==> Plain(c, n) && Settled(d, n) == Settled(c, n);
  }

  lemma HandedInHand(c: Client, h: nat)
    requires h < |c.running|
    ensures forall n: RequestId :: InHand(c, n) ==> InHand(HandedOver(c, h), n)
  {
    var d := HandedOver(c, h);
    forall n: RequestId | InHand(c, n)
      ensures InHand(d, n)
    {
      var g :| 0 <= g < |c.running| && c.running[g].request == n;
      assert d.running[g].request == n;
    }
  }

  lemma LeftInHand(c: Client, h: nat, n: RequestId)
    requires h < |c.running| && c.running[h].request != n && InHand(c, n)
    ensures InHand(Left(c, h), n)
  {
    var g :| 0 <= g < |c.running| && c.running[g].request == n;
    assert Left(c, h).running[if g < h then g else g - 1].request == n;
  }

  lemma FinishExact(c: Client, h: nat, ok: bool, how: Sending)
    requires Inv(c) && AnswersExact(c) && h < |c.running|
    ensures AnswersExact(Epilogue(c, h, ok, how))
  {
    var n := c.running[h].request;
    var d := Epilogue(c, h, ok, how);
    ReplyAnswers(c, n, how);
    var c1 := if c.kinds[n].Read? && !ok then c else Reply(c, n, how);
    forall m: RequestId | Plain(c1, m) && c1.wanted[m] && !Settled(c1, m) && InHand(c1, m)
      ensures InHand(d, m)
    {
      LeftInHand(c, h, m);
      assert d.running == Left(c, h).running;
    }
    SameAnswers(c1, d);
  }

  lemma HandOverExact(c: Client, h: nat, d: Client)
    requires AnswersExact(c) && h < |c.running|
    requires d.running == HandedOver(c, h).running && d.kinds == c.kinds && d.wanted == c.wanted
    requires d.statuses == c.statuses && d.unmade == c.unmade
    requires |d.reply| == |c.reply| && forall n: RequestId :: Plain(c, n) ==> d.reply[n] == c.reply[n]
    requires d.dispose.Some? ==> d.dispose.value < |d.kinds| && d.kinds[d.dispose.value].DeleteClient?
    ensures AnswersExact(d)
  {
    HandedInHand(c, h);
    assert forall n: RequestId :: InHand(HandedOver(c, h), n) ==> InHand(d, n);
    SameAnswers(c, d);
  }

  /** The deferred answer concerns the client's DELETE alone. */
  lemma CloseExact(c: Client, how: Sending)
    requires AnswersExact(c) && c.dispose.Some?
    ensures AnswersExact(Do(c, SessionClosed(how)))
  {
    var n := c.dispose.value;
    var c1 := c.(dispose := None, reply := c.reply[n := true]);
    assert forall m: RequestId :: InHand(c, m) ==> InHand(c1, m);
    SameAnswers(c, c1);
    ReplyAnswers(c1, n, how);
    var c2 := Reply(c1, n, how);
    assert forall m: RequestId :: InHand(c2, m) ==> InHand(Return(c2, n), m);
    SameAnswers(c2, Return(c2, n));
  }

  lemma CreatedExact(c: Client, r: ReaderId, how: Sending)
    requires AnswersExact(c) && r in c.readers && c.readers[r].Some? && Known(c, c.readers[r].value)
    ensures AnswersExact(Do(c, ReadCreated(r, how)))
  {
    ReplyAnswers(c, c.readers[r].value, how);
    var c1 := Reply(c, c.readers[r].value, how);
    var d := c1.(readers := c1.readers[r := None]);
    assert forall m: RequestId :: InHand(c1, m) ==> InHand(d, m);
    SameAnswers(c1, d);
  }

  lemma StepExact(c: Client, step: Step)
    requires Inv(c) && AnswersExact(c)
    ensures AnswersExact(Do(c, step))
  {
    var d := Do(c, step);
    if d != c {
      match step {
        case Begin(kind, reply) => BegunAnswers(c, kind, reply);
        case Answer(h, how) => ReplyAnswers(c, c.running[h].request, how);
        case Written(h) => HandOverExact(c, h, d);
        case StoreRead(h, r) => HandOverExact(c, h, d);
        case ReadCreated(r, how) => CreatedExact(c, r, how);
        case Dispose(h) => HandOverExact(c, h, d);
        case Finish(h, ok, how) => FinishExact(c, h, ok, how);
        case SessionClosed(how) => CloseExact(c, how);
        case _ =>
          assert forall m: RequestId :: InHand(c, m) ==> InHand(d, m);
          SameAnswers(c, d);
      }
    }
  }

  lemma {:induction false} RunExact(c: Client, steps: seq<Step>)
    requires Inv(c) && AnswersExact(c)
    ensures AnswersExact(Exec(c, steps))
    decreases |steps|
  {
    if steps != [] {
      StepInv(c, steps[0]);
      StepExact(c, steps[0]);
      RunExact(Do(c, steps[0]), steps[1..]);
    }
  }

  /** Once no handler runs, a request other than READ and DELETE of the client has its STATUS, or
      one that could not be made, exactly if an answer was asked for. */
  lemma AnsweredWhenIdle(steps: seq<Step>)
    requires Exec(FRESH, steps).running == []
    ensures var c := Exec(FRESH, steps);
            |c.wanted| == |c.kinds| && forall n: RequestId :: Plain(c, n) ==> (c.wanted[n] <==> n in c.statuses || n in c.unmade)
  {
    RunExact(FRESH, steps);
    var c := Exec(FRESH, steps);
    assert forall n: RequestId :: InHand(c, n) ==> false;
  }

  /** An answer within the handling takes the place of the one at its end: either way there is one
      STATUS if it can be made each time, and the request goes back the same. */
  lemma AnsweredEarly(c: Client, h: nat, how: Sending, ok: bool, how': Sending)
    requires Inv(c) && h < |c.running| && c.running[h].owns && (At(c, h, Create) || At(c, h, DeleteEntity) || At(c, h, Write))
    requires c.reply[c.running[h].request] && !how.Unmade? && !how'.Unmade?
    ensures var n := c.running[h].request;
            var early := Do(c, Answer(h, how));
            && early.statuses == c.statuses + [n] && early.returned == c.returned
            && Do(early, Step.Finish(h, ok, how')).statuses == c.statuses + [n]
            && Do(c, Step.Finish(h, ok, how')).statuses == c.statuses + [n]
            && Do(early, Step.Finish(h, ok, how')).returned == Do(c, Step.Finish(h, ok, how')).returned
  {
  }

  /** A WRITE_DATA that went well returns its request at once and not again at its end. */
  lemma WrittenReturns(c: Client, h: nat, ok: bool, how: Sending)
    requires Inv(c) && At(c, h, Write) && c.running[h].owns
    ensures var d := Do(c, Written(h));
            && d.returned == c.returned + [c.running[h].request]
            && h < |d.running| && Do(d, Step.Finish(h, ok, how)).returned == d.returned
  {
  }

  /** A READ takes the place of the one before it: the old request goes back, the new one stays with
      the reader; its answer is made when the read is created, once, and the reader keeps it exactly
      if the STATUS was sent or none was asked for. */
  lemma ReadAnswered(c: Client, h: nat, r: ReaderId, how: Sending, how': Sending)
    requires Inv(c) && At(c, h, Kind.Read) && c.running[h].owns && r in c.readers && !how'.Unmade?
    ensures var n := c.running[h].request;
            var d := Do(c, StoreRead(h, r));
            var e := Do(d, ReadCreated(r, how));
            && d.returned == c.returned + (if c.readers[r].Some? then [c.readers[r].value] else [])
            && r in d.readers && d.readers[r] == Some(n) && d.statuses == c.statuses
            && e.statuses == c.statuses + (if c.reply[n] && !how.Unmade? then [n] else [])
            && r in e.readers && e.readers[r] == (if !c.reply[n] || how.Sent? then Some(n) else None)
            && h < |e.running|
            && Do(e, Step.Finish(h, true, how')).statuses == c.statuses + (if c.reply[n] then [n] else [])
            && Do(e, Step.Finish(h, true, how')).returned == d.returned
  {
    ReadStored(c, h, r);
  }

  lemma ReadStored(c: Client, h: nat, r: ReaderId)
    requires Inv(c) && At(c, h, Kind.Read) && c.running[h].owns && r in c.readers
    ensures var d := Do(c, StoreRead(h, r));
            && d.returned == c.returned + (if c.readers[r].Some? then [c.readers[r].value] else [])
            && d.readers == c.readers[r := Some(c.running[h].request)] && d.running == HandedOver(c, h).running
            && d.kinds == c.kinds && d.reply == c.reply && d.statuses == c.statuses
  {
  }

  /** Once a client is disposed of, by its DELETE or by the timer, no request of it is taken up. */
  lemma {:induction false} DisposedDeaf(c: Client, steps: seq<Step>)
    requires c.disposed
    ensures Exec(c, steps).disposed && Exec(c, steps).kinds == c.kinds
    decreases |steps|
  {
    if steps != [] {
      DisposedDeaf(Do(c, steps[0]), steps[1..]);
    }
  }

  /** In any run no request is taken up after the timer has struck or a DELETE of the client was
      handled. */
  lemma NoneAfterEnd(c: Client, h: nat, steps: seq<Step>)
    ensures Exec(Do(c, TimedOut), steps).kinds == c.kinds
    ensures At(c, h, DeleteClient) && c.running[h].owns ==> Exec(Do(c, Dispose(h)), steps).kinds == c.kinds
  {
    DisposedDeaf(Do(c, TimedOut), steps);
    if At(c, h, DeleteClient) && c.running[h].owns {
      DisposedDeaf(Do(c, Dispose(h)), steps);
    }
  }

  /** The request of a DELETE of the client is answered and returned when the session is
      closed, if the answer can be made; the end of its handler does neither. */
  lemma DeferredReply(c: Client, h: nat, ok: bool, how: Sending, how': Sending)
    requires Inv(c) && At(c, h, DeleteClient) && c.running[h].owns && !c.disposed
    ensures var n := c.running[h].request;
            var d := Do(Do(c, Dispose(h)), Step.Finish(h, ok, how));
            && d.statuses == c.statuses && d.returned == c.returned && d.dispose == Some(n)
            && var e := Do(d, SessionClosed(how'));
               && e.returned == c.returned + [n] && e.dispose == None
               && e.statuses == c.statuses + (if how'.Unmade? then [] else [n])
  {
  }

  // ----- in place -----

  /** A client's requests as the XRCE layer keeps them. */
  class ProxyClient {
    var kinds: seq<Kind>
    var wanted: seq<bool>
    var reply: seq<bool>
    var running: seq<Handler>
    var readers: map<ReaderId, Option<RequestId>>
    var dispose: Option<RequestId>
    var disposed: bool
    var statuses: seq<RequestId>
    var unmade: seq<RequestId>
    var returned: seq<RequestId>

    constructor ()
      ensures View() == FRESH
    {
      kinds, wanted, reply, running, readers := [], [], [], [], map[];
      dispose, disposed, statuses, unmade, returned := None, false, [], [], [];
    }

    function View(): Client
      reads this
    {
      Client(kinds, wanted, reply, running, readers, dispose, disposed, statuses, unmade, returned)
    }

    method ReturnRequest(n: RequestId)
      modifies `returned
      ensures returned == old(returned) + [n]
    {
      returned := returned + [n];
    }

    /** Answers a request; a message handed to the session to be sent is used up even if that
        fails. */
    method ReplyToOperation(n: RequestId, how: Sending) returns (ok: bool)
      requires n < |reply| && n < |kinds|
      modifies `reply, `statuses, `unmade
      ensures View() == Reply(old(View()), n, how)
      ensures ok <==> old(reply[n]) && how.Sent?
    {
      ok := false;
      if !reply[n] {
        return;
      }
      if how.Unmade? {
        unmade := unmade + [n];
      } else {
        reply := reply[n := false];
        statuses := statuses + [n];
        ok := how.Sent?;
      }
    }

    /** A READ becomes its reader state's request. */
    method StoreReadRequest(h: nat, r: ReaderId)
      requires At(View(), h, Kind.Read) && running[h].owns && r in readers
      modifies this
      ensures View() == Do(old(View()), StoreRead(h, r))
    {
      if readers[r].Some? {
        ReturnRequest(readers[r].value);
      }
      readers := readers[r := Some(running[h].request)];
      running := running[h := running[h].(owns := false)];
    }

    method OnReadCreated(r: ReaderId, how: Sending)
      requires r in readers && readers[r].Some? && Known(View(), readers[r].value)
      modifies this
      ensures View() == Do(old(View()), ReadCreated(r, how))
    {
      var n := readers[r].value;
      if reply[n] {
        var ok := ReplyToOperation(n, how);
        if !ok {
          readers := readers[r := None];
        }
      }
    }

    /** Disposes of the client: its DELETE request waits for the session to be closed. */
    method DisposeClientSession(h: nat)
      requires At(View(), h, DeleteClient) && running[h].owns
      modifies this
      ensures View() == Do(old(View()), Dispose(h))
    {
      if disposed {
        return;
      }
      var n := running[h].request;
      disposed := true;
      dispose := Some(n);
      reply := reply[n := false];
      running := running[h := running[h].(owns := false)];
    }

    /** The end of a submessage's handling. */
    method OnSubmessageDone(h: nat, ok: bool, how: Sending)
      requires h < |running| && Known(View(), running[h].request)
      modifies this
      ensures View() == Do(old(View()), Step.Finish(h, ok, how))
    {
      var n := running[h].request;
      var kind := kinds[n];
      var went := if kind.Write? then !running[h].owns else ok;
      running := Remove(running, h);
      if kind.Read? && !went {
        return;
      }
      if reply[n] {
        var _ := ReplyToOperation(n, how);
      }
      if (!went || (!kind.Read? && !kind.Write?)) && !kind.DeleteClient? {
        ReturnRequest(n);
      }
    }

    /** The session is closed: the DELETE that asked for it is answered and returned. */
    method OnSessionClosed(how: Sending)
      requires disposed && (dispose.Some? ==> Known(View(), dispose.value))
      modifies this
      ensures View() == Do(old(View()), SessionClosed(how))
    {
      var request := dispose;
      dispose := None;
      if request.Some? {
        reply := reply[request.value := true];
        var _ := ReplyToOperation(request.value, how);
        ReturnRequest(request.value);
      }
    }
  }
}
