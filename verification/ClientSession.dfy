/** One client session as the agent keeps it: lists searched, shortened and appended to in
    place. Every method is tied to the function of the same step on session values. */
module ClientSessions {
  import opened SessionState
  import opened Loans
  import Dismissal
  import opened ReadLoop
  import opened SessionReads

  /** What becomes of a read whose last sample came back: its cancellation ends it. */
  function Settled(o: Outcome): Session {
    if o.out.Completed? then EndCancel(o.s, o.out.id) else o.s
  }

  /** A session and whether the operation on it went through. */
  datatype Tried = Tried(s: Session, ok: bool)

  /** A read is cancelled unless samples are pending or another worker has it in hand. */
  function Cancelled(s: Session, id: ReaderId): Tried {
    if !HasRead(s, id) then Tried(s, true)
    else if ReadOf(s, id).samples != [] || !ReadOf(s, id).open then Tried(s, false)
    else Tried(EndCancel(s, id), true)
  }

  /** A complete read with samples pending has its reader's forward requests dismissed on the
      reader's stream, which ends it by the way; one with nothing pending is cancelled. */
  function SweepOne(s: Session, id: ReaderId, env: nat -> Env): Tried {
    if !HasRead(s, id) || !ReadOf(s, id).complete then Tried(s, true)
    else if ReadOf(s, id).samples != [] then Tried(DrainAll(s, Match(Some(s.readers[id].stream), id), env).s, true)
    else Cancelled(s, id)
  }

  function SweepAll(s: Session, order: seq<ReaderId>, env: nat -> Env): Tried
    decreases |order|
  {
    if order == [] then Tried(s, true)
    else
      var r := SweepOne(s, order[0], env);
      if r.ok then SweepAll(r.s, order[1..], env) else r
  }

  lemma SweepOneInv(s: Session, id: ReaderId, env: nat -> Env)
    requires Inv(s)
    ensures Inv(SweepOne(s, id, env).s)
  {
    if HasRead(s, id) && ReadOf(s, id).complete {
      if ReadOf(s, id).samples != [] {
        DrainAllKeepsInv(s, Match(Some(s.readers[id].stream), id), env);
      } else {
        EndCancelKeepsInv(s, id);
      }
    }
  }

  /** One turn of the dismissal loop leaves the loop's end the same. */
  lemma TurnKeepsEnd(s: Session, m: Match, env: nat -> Env)
    requires MatchIndex(s.forwards, m) < |s.forwards|
    requires var f := s.forwards[MatchIndex(s.forwards, m)]; QueuedIndex(s.queue, f.stream, f.sn) < |s.queue|
    ensures var f := s.forwards[MatchIndex(s.forwards, m)];
            DrainAll(s, m, env) == DrainAll(Settled(ReleaseMessage(s, QueuedIndex(s.queue, f.stream, f.sn), env)), m, env)
  {
  }

  lemma ReleaseKeepsLists(s: Session, i: nat, env: nat -> Env)
    requires Inv(s) && i < |s.queue|
    ensures var t := Settled(ReleaseMessage(s, i, env));
            && t.queue == Remove(s.queue, i)
            && (if s.queue[i].data then
                  var j := |DataOnly(s.queue[..i])|;
                  j < |s.forwards| && SameMessage(s.forwards[j], s.queue[i]) && t.forwards == Remove(s.forwards, j)
                else t.forwards == s.forwards)
  {
    ReleaseIsDrop(s, i, env);
    if s.queue[i].data {
      var _ := DropForwardEffect(s.(queue := Remove(s.queue, i)), |DataOnly(s.queue[..i])|, env);
    }
  }

  lemma SettledInv(s: Session, i: nat, env: nat -> Env)
    requires Inv(s) && i < |s.queue|
    ensures Inv(Settled(ReleaseMessage(s, i, env)))
  {
    ReleaseKeepsInv(s, i, env);
    var r := ReleaseMessage(s, i, env);
    if r.out.Completed? {
      ReleaseIsDrop(s, i, env);
      var _ := DropForwardEffect(s.(queue := Remove(s.queue, i)), |DataOnly(s.queue[..i])|, env);
      EndCancelKeepsInv(r.s, r.out.id);
    }
  }

  /** `f` is still the first request to dismiss, or no message up to its own is queued any more. */
  ghost predicate Working(s: Session, m: Match, f: Forward) {
    var g := MatchIndex(s.forwards, m);
    (g < |s.forwards| && s.forwards[g] == f) || QueuedIndex(s.queue, f.stream, f.sn) == |s.queue|
  }

  lemma {:induction false} FirstAfterRemove(fs: seq<Forward>, m: Match, j: nat)
    requires j < |fs| && MatchIndex(fs, m) < |fs| && j != MatchIndex(fs, m)
    ensures var g := MatchIndex(Remove(fs, j), m);
            g < |Remove(fs, j)| && Remove(fs, j)[g] == fs[MatchIndex(fs, m)]
  {
    var g := MatchIndex(fs, m);
    var fs' := Remove(fs, j);
    var k := if g < j then g else g - 1;
    assert fs'[k] == fs[g];
    var g' := MatchIndex(fs', m);
    if g' < k {
      assert false;
    }
  }

  /** Releasing the first message up to `f`'s own keeps at it until the last of them is gone. */
  lemma StillWorking(s: Session, m: Match, f: Forward, env: nat -> Env)
    requires Inv(s) && Working(s, m, f) && QueuedIndex(s.queue, f.stream, f.sn) < |s.queue|
    ensures Working(Settled(ReleaseMessage(s, QueuedIndex(s.queue, f.stream, f.sn), env)), m, f)
  {
    var g := MatchIndex(s.forwards, m);
    var i := Dismissal.FirstQueued(s, g);
    ReleaseKeepsLists(s, i, env);
    var queue := Remove(s.queue, i);
    if s.queue[i].data {
      var j := |DataOnly(s.queue[..i])|;
      if j != g {
        FirstAfterRemove(s.forwards, m, j);
      } else {
        var k := QueuedIndex(queue, f.stream, f.sn);
        if k < |queue| {
          assert false;
        }
      }
    }
  }

  class ClientSession {
    var readers: map<ReaderId, Reader>
    var pool: seq<nat>
    var made: nat
    var forwards: seq<Forward>
    var queue: seq<Message>
    var lent: nat
    var returned: seq<nat>
    var life: Life

    constructor ()
      ensures View() == Session(map[], [], 0, [], [], 0, [], Life(false, false, false, false, true, false, 0))
      ensures Inv(View())
    {
      readers, pool, made, forwards, queue, lent, returned := map[], [], 0, [], [], 0, [];
      life := Life(false, false, false, false, true, false, 0);
    }

    function View(): Session
      reads this
    {
      Session(readers, pool, made, forwards, queue, lent, returned, life)
    }

    /** Looks for a buffer among the pending samples of a read. */
    method FindSample(samples: seq<Received>, buf: nat) returns (i: nat)
      ensures i == SampleIndex(samples, buf)
    {
      i := 0;
      while i < |samples| && samples[i].buf != buf
        invariant i <= |samples|
        invariant SampleIndex(samples, buf) == i + SampleIndex(samples[i..], buf)
      {
        assert samples[i..][1..] == samples[i + 1..];
        i := i + 1;
      }
    }

    /** The client gives a sample back; `out` says whether its read is to be cancelled now. */
    method ReturnLoan(d: Received, loan: nat, e: Env) returns (out: LoanResult)
      modifies this
      ensures Outcome(View(), out) == SessionState.ReturnLoan(old(View()), d, loan, e)
    {
      if d.reader !in readers || readers[d.reader].read.None? {
        return Failed;
      }
      var a := readers[d.reader];
      var r := a.read.value;
      var i := FindSample(r.samples, d.buf);
      if i == |r.samples| {
        return Failed;
      }
      r := r.(samples := Remove(r.samples, i));
      pool := pool + [d.buf];
      returned := returned + [loan];
      if a.lastReturned < d.sn {
        a := a.(lastReturned := d.sn);
      }
      if !e.ok {
        readers := readers[d.reader := a.(read := Some(r))];
        return Failed;
      }
      r := r.(rcvd := r.rcvd + 1);
      out := Kept;
      if IsComplete(r, e.now) {
        r := r.(complete := true);
        if r.samples == [] {
          out := if r.open then Completed(d.reader) else Failed;
          r := r.(open := false);
        }
      }
      readers := readers[d.reader := a.(read := Some(r))];
    }

    method FindForward(stream: StreamId, sn: nat) returns (i: nat)
      ensures i == ForwardIndex(forwards, stream, sn)
    {
      i := 0;
      while i < |forwards| && !Carries(forwards[i], stream, sn)
        invariant i <= |forwards|
        invariant ForwardIndex(forwards, stream, sn) == i + ForwardIndex(forwards[i..], stream, sn)
      {
        assert forwards[i..][1..] == forwards[i + 1..];
        i := i + 1;
      }
    }

    /** The request sent as message `sn` of a stream leaves the list, and its loan goes back. */
    method DismissForwardRequest(stream: StreamId, sn: nat, env: nat -> Env) returns (out: LoanResult)
      modifies this
      ensures Outcome(View(), out) == DismissForward(old(View()), stream, sn, env)
    {
      var i := FindForward(stream, sn);
      if i == |forwards| {
        return Kept;
      }
      var f := forwards[i];
      forwards := Remove(forwards, i);
      out := ReturnLoan(f.data, f.loan, env(f.loan));
    }

    /** A message leaves the send queue, acknowledged, lost or dismissed; a read that completes
        by it is cancelled before the call returns. */
    method OnMessageGone(i: nat, env: nat -> Env)
      requires i < |queue|
      modifies this
      ensures View() == Settled(ReleaseMessage(old(View()), i, env))
    {
      var msg := queue[i];
      queue := Remove(queue, i);
      var out := DismissForwardRequest(msg.stream, msg.sn, env);
      if out.Completed? && out.id in readers {
        readers := readers[out.id := readers[out.id].(read := None)];
      }
    }

    method FindQueued(stream: StreamId, sn: nat) returns (i: nat)
      ensures i == QueuedIndex(queue, stream, sn)
    {
      i := 0;
      while i < |queue| && !UpTo(queue[i], stream, sn)
        invariant i <= |queue|
        invariant QueuedIndex(queue, stream, sn) == i + QueuedIndex(queue[i..], stream, sn)
      {
        assert queue[i..][1..] == queue[i + 1..];
        i := i + 1;
      }
    }

    method FindMatch(m: Match) returns (i: nat)
      ensures i == MatchIndex(forwards, m)
    {
      i := 0;
      while i < |forwards| && !Matches(forwards[i], m)
        invariant i <= |forwards|
        invariant MatchIndex(forwards, m) == i + MatchIndex(forwards[i..], m)
      {
        assert forwards[i..][1..] == forwards[i + 1..];
        i := i + 1;
      }
    }

    /** Every message of the stream with a number up to the request's own goes, the listener
        being told of each. `removed` counts them. */
    method DismissSendQueueUpTo(ghost m: Match, f: Forward, env: nat -> Env) returns (removed: nat)
      requires Inv(View()) && MatchIndex(forwards, m) < |forwards| && f == forwards[MatchIndex(forwards, m)]
      modifies this
      ensures Inv(View()) && removed > 0 && |queue| + removed == old(|queue|)
      ensures QueuedIndex(queue, f.stream, f.sn) == |queue|
      ensures DrainAll(View(), m, env) == old(DrainAll(View(), m, env))
    {
      removed := 0;
      var i := FindQueued(f.stream, f.sn);
      ghost var _ := Dismissal.FirstQueued(View(), MatchIndex(forwards, m));
      while i < |queue|
        invariant Inv(View()) && Working(View(), m, f) && i == QueuedIndex(queue, f.stream, f.sn)
        invariant |queue| + removed == old(|queue|) && (removed == 0 ==> i < |queue|)
        invariant DrainAll(View(), m, env) == old(DrainAll(View(), m, env))
        decreases |queue|
      {
        SettledInv(View(), i, env);
        StillWorking(View(), m, f, env);
        TurnKeepsEnd(View(), m, env);
        ReleaseKeepsLists(View(), i, env);
        OnMessageGone(i, env);
        removed := removed + 1;
        i := FindQueued(f.stream, f.sn);
      }
    }

    /** Dismisses the forward requests that match, starting again from the head of the list
        after each; it never fails, and it ends as the loop over single messages does. */
    method DismissForwards(m: Match, env: nat -> Env) returns (ok: bool)
      requires Inv(View())
      modifies this
      ensures ok && Drained(View(), Done) == DrainAll(old(View()), m, env)
      ensures Inv(View()) && forwards == Dismissal.Surviving(old(forwards), old(forwards), m)
    {
      ghost var start := View();
      Dismissal.DismissalExact(start, m, env);
      ok := true;
      var node := FindMatch(m);
      while ok && node < |forwards|
        invariant ok && Inv(View()) && node == MatchIndex(forwards, m)
        invariant DrainAll(View(), m, env) == DrainAll(start, m, env)
        decreases |queue|
      {
        var removed := DismissSendQueueUpTo(m, forwards[node], env);
        ok := removed != 0;
        node := FindMatch(m);
      }
    }

    /** A sample is taken up by the session's client: forwarded in a message of its reader's
        stream, which keeps it on loan if the stream is reliable, or ignored. */
    method OnDataReceived(id: ReaderId, data: Received, d: Delivery) returns (retained: bool, again: bool)
      requires id in readers && !d.Broken?
      modifies `forwards, `queue, `lent
      ensures !(retained && again)
      ensures again <==> TakingOf(old(View()), id, d).Full?
      ensures retained <==> TakingOf(old(View()), id, d).Take? && TakingOf(old(View()), id, d).kept.Some?
      ensures View() == if !retained then old(View()) else
                var s, stream := old(View()), old(readers[id].stream);
                s.(forwards := s.forwards + [Forward(data, stream, d.sn, s.lent)],
                   queue := s.queue + [Message(stream, d.sn, true)], lent := s.lent + 1)
    {
      retained, again := false, false;
      var stream := readers[id].stream;
      if !readers[id].forward || life.disposed || d.Unforwarded? {
        return;
      }
      if d.NoRoom? {
        again := true;
        return;
      }
      forwards := forwards + [Forward(data, stream, d.sn, lent)];
      if Reliable(stream) {
        queue := queue + [Message(stream, d.sn, true)];
        lent := lent + 1;
        retained := true;
      } else {
        forwards := Remove(forwards, |forwards| - 1);
        assert forwards == old(forwards);
      }
    }

    /** A buffer from the reuse pool, or else a new one. */
    method GetBuffer() returns (buf: nat)
      modifies `pool, `made
      ensures (View(), buf) == TakeBuffer(old(View()))
    {
      if pool != [] {
        buf := pool[0];
        pool := pool[1..];
      } else {
        buf := made;
        made := made + 1;
      }
    }

    /** A sample that was taken moves its read on; one that was not retained counts as
        returned at once. */
    method Accept(id: ReaderId, data: Received, now: int, retained: bool)
      requires HasRead(View(), id)
      modifies `readers
      ensures readers == old(readers)[id := if retained then Retained(old(readers[id]), data, now)
                                            else Counted(old(readers[id]), data.sn, now)]
    {
      var a := readers[id];
      var r := a.read.value;
      if retained {
        r := r.(samples := r.samples + [data]);
      } else {
        a := a.(lastReturned := data.sn);
        r := r.(rcvd := r.rcvd + 1);
      }
      r := r.(lastSample := data.sn, lastTs := now);
      readers := readers[id := a.(read := Some(r), lastForwarded := data.sn)];
    }

    /** Offers one sample of the cache to the client. */
    method ProcessSample(id: ReaderId, sn: int, now: int, d: Delivery) returns (out: SampleResult)
      requires HasRead(View(), id)
      modifies this
      ensures Processed(View(), out) == SessionState.ProcessSample(old(View()), id, sn, now, d)
    {
      var r := readers[id].read.value;
      if r.lastSample >= sn {
        return OldSample;
      }
      if r.pace != 0 && now - r.lastTs < r.pace {
        return TryAgain(r.pace - (now - r.lastTs));
      }
      var buf := GetBuffer();
      if d.Broken? {
        pool := pool + [buf];
        return SampleError;
      }
      var data := Received(buf, id, sn);
      var retained, again := OnDataReceived(id, data, d);
      if again {
        pool := pool + [buf];
        return TryAgain(ROOM_DELAY);
      }
      Accept(id, data, now, retained);
      return HandedUp;
    }

    method SetStatus(id: ReaderId, delayed: bool, complete: bool)
      requires HasRead(View(), id)
      modifies `readers
      ensures readers == old(readers)[id := WithStatus(old(readers[id]), delayed, complete)]
    {
      readers := readers[id := WithStatus(readers[id], delayed, complete)];
    }

    /** One read attempt over the samples `cache` of the reader. */
    method ReadFromReader(id: ReaderId, cache: seq<Cached>, now: int, later: int, ds: int -> Delivery)
      returns (out: Stop, ghost log: seq<Handed>)
      requires HasRead(View(), id)
      modifies this
      ensures ReadDone(View(), log, out) == ReadAttempt(old(View()), id, cache, now, later, ds)
    {
      out, log := AtEnd, [];
      if IsComplete(readers[id].read.value, now) {
        SetStatus(id, false, true);
        return;
      }
      ghost var whole := ReadBatch(View(), id, cache, now, ds);
      var i := 0;
      while i < |cache| && out.AtEnd?
        invariant i <= |cache| && HasRead(View(), id)
        invariant out.AtEnd? ==>
                    var b := ReadBatch(View(), id, cache[i..], now, ds); whole == ReadDone(b.s, log + b.log, b.out)
        invariant !out.AtEnd? ==> whole == ReadDone(View(), log, out)
        decreases |cache| - i, out.AtEnd?
      {
        var c := cache[i];
        ghost var before, rest := View(), cache[i..];
        assert rest[0] == c && rest[1..] == cache[i + 1..];
        i := i + 1;
        if c.valid {
          var result := ProcessSample(id, c.sn, now, ds(c.sn));
          match result {
            case OldSample =>
            case TryAgain(d) => out := Again(d);
            case SampleError => out := Error;
            case HandedUp => log := log + [Handed(c.sn, now)];
          }
        }
      }
      SetStatus(id, out.Again?, out.AtEnd? && IsComplete(readers[id].read.value, later));
    }

    /** Cancels a read, waiting until the cancellation is through. */
    method CancelRead(id: ReaderId) returns (ok: bool)
      modifies `readers
      ensures Tried(View(), ok) == Cancelled(old(View()), id)
    {
      ok := true;
      if id in readers && readers[id].read.Some? {
        var r := readers[id].read.value;
        ok := r.samples == [] && r.open;
        if ok {
          readers := readers[id := readers[id].(read := None)];
        }
      }
    }

    /** Sweeps the completed reads, in the order of the session's attachments. */
    method SweepCompletedReads(order: seq<ReaderId>, env: nat -> Env) returns (ok: bool)
      requires Inv(View())
      modifies this
      ensures Inv(View()) && Tried(View(), ok) == SweepAll(old(View()), order, env)
    {
      ok := true;
      var i := 0;
      while i < |order| && ok
        invariant i <= |order| && Inv(View())
        invariant SweepAll(old(View()), order, env) == if ok then SweepAll(View(), order[i..], env) else Tried(View(), ok)
        decreases |order| - i, ok
      {
        var id := order[i];
        assert order[i..][1..] == order[i + 1..];
        SweepOneInv(View(), id, env);
        i := i + 1;
        if id in readers && readers[id].read.Some? && readers[id].read.value.complete {
          if readers[id].read.value.samples != [] {
            var _ := DismissForwards(Match(Some(readers[id].stream), id), env);
          } else {
            ok := CancelRead(id);
          }
        }
      }
    }
  }
}
