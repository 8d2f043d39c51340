/** A read attempt on a session refines the attempt on the reader alone, and keeps the loan
    invariant. */
module SessionReads {
  import opened SessionState
  import opened Loans
  import opened ReadLoop

  /** What a delivery comes to for the reader. */
  function TakingOf(s: Session, id: ReaderId, d: Delivery): Taking
    requires id in s.readers
  {
    if d.Broken? then Refuse
    else if !s.readers[id].forward || s.life.disposed || d.Unforwarded? then Take(None)
    else if d.NoRoom? then Full
    else if !Reliable(s.readers[id].stream) then Take(None)
    else Take(Some(TakeBuffer(s).1))
  }

  lemma ProcessIsOffer(s: Session, id: ReaderId, sn: int, now: int, d: Delivery)
    requires HasRead(s, id)
    ensures var p := ProcessSample(s, id, sn, now, d);
            var o := Offer(s.readers[id], id, sn, now, TakingOf(s, id, d));
            p.s.readers == s.readers[id := o.a] && p.out == o.out && p.s.life == s.life
  {
    if !ProcessSample(s, id, sn, now, d).out.HandedUp? {
      assert s.readers == s.readers[id := s.readers[id]];
    }
  }

  /** A sample that is handed up takes one buffer, the first of the reuse pool if there is one; any
      other leaves as many as there were, and all else as it was. */
  lemma BuffersBalance(s: Session, id: ReaderId, sn: int, now: int, d: Delivery)
    requires HasRead(s, id)
    ensures var p := ProcessSample(s, id, sn, now, d);
            && p.s.made - |p.s.pool| == s.made - |s.pool| + (if p.out.HandedUp? then 1 else 0)
            && (p.s.made > s.made ==> s.pool == [])
            && (forall b :: b in p.s.pool ==> b in s.pool || b == s.made)
            && (p.out.HandedUp? ==> forall b :: b in s.pool && b != TakeBuffer(s).1 ==> b in p.s.pool)
            && (!p.out.HandedUp? ==>
                  p.s == s.(made := p.s.made, pool := p.s.pool) && forall b :: b in s.pool ==> b in p.s.pool)
  {
    if s.pool != [] {
      assert s.pool == [s.pool[0]] + s.pool[1..];
    }
  }

  datatype ReadDone = ReadDone(s: Session, log: seq<Handed>, out: Stop)

  /** The loop of a read attempt over the samples of the cache. */
  function ReadBatch(s: Session, id: ReaderId, cache: seq<Cached>, now: int, ds: int -> Delivery): (b: ReadDone)
    requires HasRead(s, id)
    ensures HasRead(b.s, id)
    decreases |cache|
  {
    if cache == [] then ReadDone(s, [], AtEnd)
    else if !cache[0].valid then ReadBatch(s, id, cache[1..], now, ds)
    else
      var p := ProcessSample(s, id, cache[0].sn, now, ds(cache[0].sn));
      match p.out
      case OldSample => ReadBatch(p.s, id, cache[1..], now, ds)
      case TryAgain(d) => ReadDone(p.s, [], Again(d))
      case SampleError => ReadDone(p.s, [], Error)
      case HandedUp =>
        var b := ReadBatch(p.s, id, cache[1..], now, ds);
        ReadDone(b.s, [Handed(cache[0].sn, now)] + b.log, b.out)
  }

  function ReadAttempt(s: Session, id: ReaderId, cache: seq<Cached>, now: int, later: int, ds: int -> Delivery): ReadDone
    requires HasRead(s, id)
  {
    if IsComplete(ReadOf(s, id), now) then
      ReadDone(s.(readers := s.readers[id := WithStatus(s.readers[id], false, true)]), [], AtEnd)
    else
      var b := ReadBatch(s, id, cache, now, ds);
      var a := b.s.readers[id];
      b.(s := b.s.(readers := b.s.readers[id := WithStatus(a, b.out.Again?, b.out.AtEnd? && IsComplete(a.read.value, later))]))
  }

  lemma {:induction false} BatchSame(a: Reader, id: ReaderId, cache: seq<Cached>, now: int, vs: int -> Taking, vs': int -> Taking)
    requires a.read.Some? && forall i :: 0 <= i < |cache| ==> vs(cache[i].sn) == vs'(cache[i].sn)
    ensures Batch(a, id, cache, now, vs) == Batch(a, id, cache, now, vs')
    decreases |cache|
  {
    if cache != [] {
      var o := if cache[0].valid then Offer(a, id, cache[0].sn, now, vs(cache[0].sn)) else Offered(a, OldSample);
      BatchSame(o.a, id, cache[1..], now, vs, vs');
    }
  }

  /** For the reader the session's loop is the loop on the reader alone, under the verdicts
      that the session's state gave rise to. */
  lemma {:induction false} BatchRefines(s: Session, id: ReaderId, cache: seq<Cached>, now: int, ds: int -> Delivery)
    returns (vs: int -> Taking)
    requires HasRead(s, id) && ReadLoop.Ascending(cache)
    ensures var b := ReadBatch(s, id, cache, now, ds);
            Batch(s.readers[id], id, cache, now, vs) == Batched(b.s.readers[id], b.log, b.out)
    decreases |cache|
  {
    if cache == [] {
      vs := _ => Refuse;
    } else if !cache[0].valid {
      vs := BatchRefines(s, id, cache[1..], now, ds);
    } else {
      var sn := cache[0].sn;
      var v := TakingOf(s, id, ds(sn));
      ProcessIsOffer(s, id, sn, now, ds(sn));
      var p := ProcessSample(s, id, sn, now, ds(sn));
      if p.out.OldSample? || p.out.HandedUp? {
        var rest := BatchRefines(p.s, id, cache[1..], now, ds);
        vs := n => if n == sn then v else rest(n);
        BatchSame(p.s.readers[id], id, cache[1..], now, vs, rest);
      } else {
        vs := _ => v;
      }
    }
  }

  /** A read attempt on a session hands up exactly the valid samples between where the read was
      and where it is then, in order; at the end of the cache it has caught up. */
  lemma ReadBatchExact(s: Session, id: ReaderId, cache: seq<Cached>, now: int, ds: int -> Delivery)
    requires HasRead(s, id) && ReadLoop.Ascending(cache)
    ensures var b := ReadBatch(s, id, cache, now, ds);
            && Numbers(b.log) == Wanted(cache, Last(s.readers[id]), Last(b.s.readers[id]))
            && (b.out.AtEnd? ==> CaughtUp(cache, Last(b.s.readers[id])))
  {
    var vs := BatchRefines(s, id, cache, now, ds);
    BatchExact(s.readers[id], id, cache, now, vs);
  }

  /** A read attempt on a session is, for the reader, the attempt on the reader alone. */
  lemma AttemptRefines(s: Session, id: ReaderId, cache: seq<Cached>, now: int, later: int, ds: int -> Delivery)
    returns (vs: int -> Taking)
    requires HasRead(s, id) && ReadLoop.Ascending(cache)
    ensures var t := ReadAttempt(s, id, cache, now, later, ds);
            HasRead(t.s, id) && Attempt(s.readers[id], id, cache, now, later, vs) == Batched(t.s.readers[id], t.log, t.out)
  {
    vs := BatchRefines(s, id, cache, now, ds);
  }

  /** A read attempt on a session: when the read is over nothing is handed up, no request, message
      or loan is made, and the read is marked complete; otherwise exactly the valid samples between
      where the read was and where it is then are handed up, in order, and the read is marked
      complete exactly when the loop came to the end of the cache with the read over by then. */
  lemma ReadAttemptExact(s: Session, id: ReaderId, cache: seq<Cached>, now: int, later: int, ds: int -> Delivery)
    requires HasRead(s, id) && ReadLoop.Ascending(cache)
    ensures var t := ReadAttempt(s, id, cache, now, later, ds);
            && HasRead(t.s, id)
            && (Over(ReadOf(s, id), now) ==>
                  t.log == [] && t.s.forwards == s.forwards && t.s.queue == s.queue && t.s.lent == s.lent && t.s.pool == s.pool)
            && (!Over(ReadOf(s, id), now) ==> Numbers(t.log) == Wanted(cache, Last(s.readers[id]), Last(t.s.readers[id])))
            && (!Over(ReadOf(s, id), now) && t.out.AtEnd? ==> CaughtUp(cache, Last(t.s.readers[id])))
            && (ReadOf(t.s, id).complete <==>
                  ReadOf(s, id).complete || Over(ReadOf(s, id), now) || (t.out.AtEnd? && Over(ReadOf(t.s, id), later)))
  {
    var vs := AttemptRefines(s, id, cache, now, later, ds);
    AttemptExact(s.readers[id], id, cache, now, later, vs);
  }

  /** A batch touches no other reader. */
  lemma {:induction false} BatchElsewhere(s: Session, id: ReaderId, cache: seq<Cached>, now: int, ds: int -> Delivery, k: ReaderId)
    requires HasRead(s, id) && k != id && k in s.readers
    ensures var t := ReadBatch(s, id, cache, now, ds).s; k in t.readers && t.readers[k] == s.readers[k]
    decreases |cache|
  {
    if cache != [] {
      if !cache[0].valid {
        BatchElsewhere(s, id, cache[1..], now, ds, k);
      } else {
        ProcessIsOffer(s, id, cache[0].sn, now, ds(cache[0].sn));
        var p := ProcessSample(s, id, cache[0].sn, now, ds(cache[0].sn));
        if p.out.OldSample? || p.out.HandedUp? {
          BatchElsewhere(p.s, id, cache[1..], now, ds, k);
        }
      }
    }
  }

  /** The messages sent in one loop get numbers that only go up. */
  ghost predicate SendsFit(queue: seq<Message>, stream: StreamId, cache: seq<Cached>, ds: int -> Delivery) {
    && (forall i :: 0 <= i < |cache| && ds(cache[i].sn).Sent? ==> NextOnStream(queue, stream, ds(cache[i].sn).sn))
    && (forall i, j :: 0 <= i < j < |cache| && ds(cache[i].sn).Sent? && ds(cache[j].sn).Sent? ==> ds(cache[i].sn).sn < ds(cache[j].sn).sn)
  }

  lemma SendsFitRest(s: Session, id: ReaderId, cache: seq<Cached>, now: int, ds: int -> Delivery)
    requires HasRead(s, id) && cache != [] && SendsFit(s.queue, s.readers[id].stream, cache, ds)
    ensures var t := ProcessSample(s, id, cache[0].sn, now, ds(cache[0].sn)).s;
            t.readers[id].stream == s.readers[id].stream && SendsFit(t.queue, s.readers[id].stream, cache[1..], ds)
    ensures SendsFit(s.queue, s.readers[id].stream, cache[1..], ds)
  {
    var rest := cache[1..];
    assert forall i :: 0 <= i < |rest| ==> rest[i] == cache[i + 1];
  }

  /** Offering the first sample of the cache leaves all that the rest of the loop needs. */
  lemma OfferedReady(s: Session, id: ReaderId, cache: seq<Cached>, now: int, ds: int -> Delivery)
    requires Inv(s) && HasRead(s, id) && ReadOf(s, id).open && cache != [] && SendsFit(s.queue, s.readers[id].stream, cache, ds)
    ensures var t := ProcessSample(s, id, cache[0].sn, now, ds(cache[0].sn)).s;
            && Inv(t) && HasRead(t, id) && ReadOf(t, id).open && SendsFit(t.queue, t.readers[id].stream, cache[1..], ds)
  {
    SendsFitRest(s, id, cache, now, ds);
    ProcessKeepsInv(s, id, cache[0].sn, now, ds(cache[0].sn));
    ProcessKeepsOpen(s, id, cache[0].sn, now, ds(cache[0].sn));
  }

  lemma {:induction false} ReadBatchKeepsInv(s: Session, id: ReaderId, cache: seq<Cached>, now: int, ds: int -> Delivery)
    requires Inv(s) && HasRead(s, id) && ReadOf(s, id).open && SendsFit(s.queue, s.readers[id].stream, cache, ds)
    ensures var b := ReadBatch(s, id, cache, now, ds).s; Inv(b) && ReadOf(b, id).open
    decreases |cache|
  {
    if cache != [] {
      if !cache[0].valid {
        SendsFitRest(s, id, cache, now, ds);
        ReadBatchKeepsInv(s, id, cache[1..], now, ds);
      } else {
        OfferedReady(s, id, cache, now, ds);
        var p := ProcessSample(s, id, cache[0].sn, now, ds(cache[0].sn));
        if p.out.OldSample? || p.out.HandedUp? {
          ReadBatchKeepsInv(p.s, id, cache[1..], now, ds);
        }
      }
    }
  }

  lemma ProcessKeepsOpen(s: Session, id: ReaderId, sn: int, now: int, d: Delivery)
    requires HasRead(s, id)
    ensures var t := ProcessSample(s, id, sn, now, d).s; HasRead(t, id) && ReadOf(t, id).open == ReadOf(s, id).open
  {
  }

  /** A read attempt keeps the loan invariant. */
  lemma ReadAttemptKeepsInv(s: Session, id: ReaderId, cache: seq<Cached>, now: int, later: int, ds: int -> Delivery)
    requires Inv(s) && HasRead(s, id) && ReadOf(s, id).open && SendsFit(s.queue, s.readers[id].stream, cache, ds)
    ensures Inv(ReadAttempt(s, id, cache, now, later, ds).s)
  {
    ReadBatchKeepsInv(s, id, cache, now, ds);
    var b := ReadBatch(s, id, cache, now, ds);
    if IsComplete(ReadOf(s, id), now) {
      KeptSamples(s, id, WithStatus(s.readers[id], false, true));
    } else {
      var a := b.s.readers[id];
      KeptSamples(b.s, id, WithStatus(a, b.out.Again?, b.out.AtEnd? && IsComplete(a.read.value, later)));
    }
  }
}
