/** How samples get from the cache of a DDS reader to the requests that read it: one attempt
    goes through the cache from its front, and what every request has passed is dismissed. */
module ReadLoop {
  import opened SessionState

  datatype Cached = Cached(sn: int, valid: bool)

  /** What the upcall for a sample comes to: it fails, it asks to be tried again, or it takes
      the sample, into buffer `kept` when it retains it. */
  datatype Taking = Refuse | Full | Take(kept: Option<nat>)

  datatype Offered = Offered(a: Reader, out: SampleResult)

  function Offer(a: Reader, id: ReaderId, sn: int, now: int, v: Taking): (o: Offered)
    requires a.read.Some?
    ensures o.a.read.Some? && o.a.read.value.pace == a.read.value.pace
    ensures o.out.HandedUp? ==> o.a.read.value.lastSample == o.a.lastForwarded == sn > a.read.value.lastSample
                                && o.a.read.value.lastTs == now
                                && (a.read.value.pace != 0 ==> now - a.read.value.lastTs >= a.read.value.pace)
    ensures !o.out.HandedUp? ==> o.a == a
    ensures o.out.HandedUp? <==> v.Take? && a.read.value.lastSample < sn
                                 && (a.read.value.pace > 0 ==> now - a.read.value.lastTs >= a.read.value.pace)
    ensures o.out.OldSample? <==> sn <= a.read.value.lastSample
  {
    var r := a.read.value;
    if r.lastSample >= sn then Offered(a, OldSample)
    else if r.pace != 0 && now - r.lastTs < r.pace then Offered(a, TryAgain(r.pace - (now - r.lastTs)))
    else
      match v
      case Refuse => Offered(a, SampleError)
      case Full => Offered(a, TryAgain(ROOM_DELAY))
      case Take(None) => Offered(Counted(a, sn, now), HandedUp)
      case Take(Some(buf)) => Offered(Retained(a, Received(buf, id, sn), now), HandedUp)
  }

  datatype Handed = Handed(sn: int, at: int)

  datatype Stop = AtEnd | Again(delay: int) | Error

  datatype Batched = Batched(a: Reader, log: seq<Handed>, out: Stop)

  function Batch(a: Reader, id: ReaderId, cache: seq<Cached>, now: int, vs: int -> Taking): (b: Batched)
    requires a.read.Some?
    ensures b.a.read.Some?
    decreases |cache|
  {
    if cache == [] then Batched(a, [], AtEnd)
    else if !cache[0].valid then Batch(a, id, cache[1..], now, vs)
    else
      var o := Offer(a, id, cache[0].sn, now, vs(cache[0].sn));
      match o.out
      case OldSample => Batch(a, id, cache[1..], now, vs)
      case TryAgain(d) => Batched(a, [], Again(d))
      case SampleError => Batched(a, [], Error)
      case HandedUp =>
        var b := Batch(o.a, id, cache[1..], now, vs);
        Batched(b.a, [Handed(cache[0].sn, now)] + b.log, b.out)
  }

  function WithStatus(a: Reader, delayed: bool, complete: bool): Reader
    requires a.read.Some?
  {
    var r := a.read.value;
    a.(read := Some(r.(delayed := r.delayed || delayed, available := r.available && delayed, complete := r.complete || complete)))
  }

  /** One read attempt: nothing when the read is complete already, else one batch, after which
      completeness is looked at again unless the batch broke off. */
  function Attempt(a: Reader, id: ReaderId, cache: seq<Cached>, now: int, then_: int, vs: int -> Taking): (b: Batched)
    requires a.read.Some?
    ensures b.a.read.Some?
  {
    if IsComplete(a.read.value, now) then Batched(WithStatus(a, false, true), [], AtEnd)
    else
      var b := Batch(a, id, cache, now, vs);
      b.(a := WithStatus(b.a, b.out.Again?, b.out.AtEnd? && IsComplete(b.a.read.value, then_)))
  }

  // ----- what an attempt hands up -----

  predicate Ascending(cache: seq<Cached>) {
    forall i, j :: 0 <= i < j < |cache| ==> cache[i].sn < cache[j].sn
  }

  /** The numbers of the valid samples above `low` and up to `high`, in order. */
  function Wanted(cache: seq<Cached>, low: int, high: int): (r: seq<int>)
    ensures forall k :: 0 <= k < |r| ==> low < r[k] <= high
  {
    if cache == [] then []
    else (if cache[0].valid && low < cache[0].sn <= high then [cache[0].sn] else []) + Wanted(cache[1..], low, high)
  }

  function Numbers(log: seq<Handed>): (r: seq<int>)
    ensures |r| == |log| && forall k :: 0 <= k < |r| ==> r[k] == log[k].sn
  {
    if log == [] then [] else [log[0].sn] + Numbers(log[1..])
  }

  function Last(a: Reader): int
    requires a.read.Some?
  {
    a.read.value.lastSample
  }

  lemma {:induction false} NoneWanted(cache: seq<Cached>, low: int, high: int)
    requires forall i :: 0 <= i < |cache| && cache[i].valid ==> cache[i].sn <= low || cache[i].sn > high
    ensures Wanted(cache, low, high) == []
  {
    if cache != [] {
      NoneWanted(cache[1..], low, high);
    }
  }

  predicate CaughtUp(cache: seq<Cached>, last: int) {
    forall i :: 0 <= i < |cache| && cache[i].valid ==> cache[i].sn <= last
  }

  /** A read moves only forward, to the last number it handed up. */
  lemma {:induction false} BatchForward(a: Reader, id: ReaderId, cache: seq<Cached>, now: int, vs: int -> Taking)
    requires a.read.Some?
    ensures var b := Batch(a, id, cache, now, vs);
            && Last(a) <= Last(b.a)
            && (b.log == [] ==> b.a == a)
            && (b.log != [] ==> Last(b.a) == b.log[|b.log| - 1].sn == b.a.lastForwarded)
    decreases |cache|
  {
    if cache != [] {
      var o := if cache[0].valid then Offer(a, id, cache[0].sn, now, vs(cache[0].sn)) else Offered(a, OldSample);
      if o.out.OldSample? || o.out.HandedUp? {
        BatchForward(o.a, id, cache[1..], now, vs);
      }
    }
  }

  /** A sample handed up goes before what the rest of the batch hands up. */
  lemma WantedFirst(cache: seq<Cached>, low: int, high: int)
    requires cache != [] && Ascending(cache) && cache[0].valid && low < cache[0].sn <= high
    ensures Wanted(cache, low, high) == [cache[0].sn] + Wanted(cache[1..], cache[0].sn, high)
  {
    SkipLow(cache[1..], low, cache[0].sn, high);
  }

  /** One batch hands up exactly the valid samples between where the read was and where it is
      then, in order; at the end of the cache it has caught up. */
  lemma {:induction false} BatchExact(a: Reader, id: ReaderId, cache: seq<Cached>, now: int, vs: int -> Taking)
    requires a.read.Some? && Ascending(cache)
    ensures var b := Batch(a, id, cache, now, vs);
            && Numbers(b.log) == Wanted(cache, Last(a), Last(b.a))
            && (b.out.AtEnd? ==> CaughtUp(cache, Last(b.a)))
    decreases |cache|
  {
    if cache != [] {
      var rest := cache[1..];
      var o := if cache[0].valid then Offer(a, id, cache[0].sn, now, vs(cache[0].sn)) else Offered(a, OldSample);
      if o.out.OldSample? {
        BatchExact(a, id, rest, now, vs);
        BatchForward(a, id, rest, now, vs);
        BatchCaughtUp(cache, Last(Batch(a, id, rest, now, vs).a));
      } else if o.out.HandedUp? {
        BatchExact(o.a, id, rest, now, vs);
        BatchForward(o.a, id, rest, now, vs);
        var high := Last(Batch(o.a, id, rest, now, vs).a);
        WantedFirst(cache, Last(a), high);
        BatchCaughtUp(cache, high);
      } else {
        NoneWanted(cache, Last(a), Last(a));
      }
    }
  }

  lemma BatchCaughtUp(cache: seq<Cached>, last: int)
    requires cache != [] && (cache[0].valid ==> cache[0].sn <= last)
    ensures CaughtUp(cache[1..], last) ==> CaughtUp(cache, last)
  {
  }

  /** Raising the lower bound to just below the cache leaves out nothing. */
  lemma {:induction false} SkipLow(cache: seq<Cached>, low: int, low': int, high: int)
    requires low <= low' && forall i :: 0 <= i < |cache| ==> cache[i].sn > low'
    ensures Wanted(cache, low, high) == Wanted(cache, low', high)
  {
    if cache != [] {
      SkipLow(cache[1..], low, low', high);
    }
  }

  /** Where the batch stopped: the valid samples before `i` are behind the read, and the one at `i`
      is what it broke off at. */
  ghost predicate BrokeOffAt(b: Batched, id: ReaderId, cache: seq<Cached>, now: int, vs: int -> Taking, i: int)
    requires b.a.read.Some? && 0 <= i < |cache|
  {
    && cache[i].valid && (forall k :: 0 <= k < i && cache[k].valid ==> cache[k].sn <= Last(b.a))
    && var out := Offer(b.a, id, cache[i].sn, now, vs(cache[i].sn)).out;
       if b.out.Again? then out == TryAgain(b.out.delay) else out == SampleError
  }

  /** A batch breaks off exactly at the first sample that asks for another try or fails: there, in
      the state it leaves the read in, offering the sample again has the same outcome, and with the
      delay that it asks for. */
  lemma {:induction false} BatchBreaksOff(a: Reader, id: ReaderId, cache: seq<Cached>, now: int, vs: int -> Taking)
    requires a.read.Some?
    ensures var b := Batch(a, id, cache, now, vs); !b.out.AtEnd? <==> exists i :: 0 <= i < |cache| && BrokeOffAt(b, id, cache, now, vs, i)
    decreases |cache|
  {
    var b := Batch(a, id, cache, now, vs);
    if cache != [] {
      var o := if cache[0].valid then Offer(a, id, cache[0].sn, now, vs(cache[0].sn)) else Offered(a, OldSample);
      if o.out.OldSample? || o.out.HandedUp? {
        var rest := cache[1..];
        BatchBreaksOff(o.a, id, rest, now, vs);
        BatchForward(o.a, id, rest, now, vs);
        var b' := Batch(o.a, id, rest, now, vs);
        assert b'.a == b.a && b'.out == b.out;
        forall i | 0 <= i < |rest|
          ensures BrokeOffAt(b', id, rest, now, vs, i) <==> BrokeOffAt(b, id, cache, now, vs, i + 1)
        {
          assert rest[i] == cache[i + 1];
          assert forall k :: 0 < k <= i ==> cache[k] == rest[k - 1];
        }
        assert !BrokeOffAt(b, id, cache, now, vs, 0);
        if i :| 0 <= i < |cache| && BrokeOffAt(b, id, cache, now, vs, i) {
          assert BrokeOffAt(b', id, rest, now, vs, i - 1);
        }
        if i :| 0 <= i < |rest| && BrokeOffAt(b', id, rest, now, vs, i) {
          assert BrokeOffAt(b, id, cache, now, vs, i + 1);
        }
      } else {
        assert BrokeOffAt(b, id, cache, now, vs, 0);
      }
    }
  }

  // ----- when a read is over -----

  /** The read is bounded, and what bounds it has been reached. */
  predicate Over(r: Read, now: int) {
    && (r.max > 0 || r.maxElapsed > 0)
    && (r.max > 0 ==> r.rcvd >= r.max) && (r.maxElapsed > 0 ==> now - r.start >= r.maxElapsed)
  }

  /** What an attempt never changes in a read, whatever it hands up: its bounds, and all that has
      been noted of it so far. */
  predicate SameTerms(r: Read, r': Read) {
    && r'.max == r.max && r'.maxElapsed == r.maxElapsed && r'.start == r.start && r'.pace == r.pace
    && r'.complete == r.complete && r'.delayed == r.delayed && r'.available == r.available && r'.open == r.open
  }

  lemma OfferTerms(a: Reader, id: ReaderId, sn: int, now: int, v: Taking)
    requires a.read.Some?
    ensures SameTerms(a.read.value, Offer(a, id, sn, now, v).a.read.value)
  {
  }

  lemma {:induction false} BatchTerms(a: Reader, id: ReaderId, cache: seq<Cached>, now: int, vs: int -> Taking)
    requires a.read.Some?
    ensures SameTerms(a.read.value, Batch(a, id, cache, now, vs).a.read.value)
    decreases |cache|
  {
    if cache != [] {
      OfferTerms(a, id, cache[0].sn, now, vs(cache[0].sn));
      BatchTerms(a, id, cache[1..], now, vs);
      BatchTerms(Offer(a, id, cache[0].sn, now, vs(cache[0].sn)).a, id, cache[1..], now, vs);
    }
  }

  /** An attempt on a read that is over hands up nothing and marks it complete. Any other hands up
      exactly the valid samples between where the read was and where it is then, and marks it
      complete exactly when it came to the end of the cache with the read over by then. */
  lemma AttemptExact(a: Reader, id: ReaderId, cache: seq<Cached>, now: int, later: int, vs: int -> Taking)
    requires a.read.Some? && Ascending(cache)
    ensures var b := Attempt(a, id, cache, now, later, vs);
            var r, r' := a.read.value, b.a.read.value;
            && (Over(r, now) ==> b.log == [] && b.out.AtEnd? && r'.samples == r.samples && r'.rcvd == r.rcvd && Last(b.a) == Last(a))
            && (!Over(r, now) ==> Numbers(b.log) == Wanted(cache, Last(a), Last(b.a)))
            && (!Over(r, now) && b.out.AtEnd? ==> CaughtUp(cache, Last(b.a)))
            && (r'.complete <==> r.complete || Over(r, now) || (b.out.AtEnd? && Over(r', later)))
            && (r'.delayed <==> r.delayed || b.out.Again?) && (r'.available <==> r.available && b.out.Again?)
  {
    BatchExact(a, id, cache, now, vs);
    BatchTerms(a, id, cache, now, vs);
  }

  // ----- pacing -----

  /** With pacing on every delivery comes at least the pace after the one before. */
  predicate Paced(log: seq<Handed>, pace: nat) {
    pace > 0 ==> forall i :: 0 < i < |log| ==> log[i].at - log[i - 1].at >= pace
  }

  /** The log of a read so far: it ends where and when the read last took a sample. */
  predicate EndsAt(log: seq<Handed>, a: Reader)
    requires a.read.Some?
  {
    log != [] ==> log[|log| - 1] == Handed(Last(a), a.read.value.lastTs)
  }

  lemma PacedSnoc(log: seq<Handed>, pace: nat, h: Handed)
    requires Paced(log, pace) && (pace > 0 && log != [] ==> h.at - log[|log| - 1].at >= pace)
    ensures Paced(log + [h], pace)
  {
  }

  lemma {:induction false} BatchPaced(a: Reader, id: ReaderId, cache: seq<Cached>, now: int, vs: int -> Taking, log: seq<Handed>)
    requires a.read.Some? && Paced(log, a.read.value.pace) && EndsAt(log, a)
    ensures var b := Batch(a, id, cache, now, vs);
            Paced(log + b.log, a.read.value.pace) && EndsAt(log + b.log, b.a) && b.a.read.value.pace == a.read.value.pace
    decreases |cache|
  {
    assert log + [] == log;
    if cache != [] {
      var o := if cache[0].valid then Offer(a, id, cache[0].sn, now, vs(cache[0].sn)) else Offered(a, OldSample);
      if o.out.HandedUp? {
        var h := Handed(cache[0].sn, now);
        PacedSnoc(log, a.read.value.pace, h);
        BatchPaced(o.a, id, cache[1..], now, vs, log + [h]);
        assert log + ([h] + Batch(o.a, id, cache[1..], now, vs).log) == log + [h] + Batch(o.a, id, cache[1..], now, vs).log;
      } else if o.out.OldSample? {
        BatchPaced(a, id, cache[1..], now, vs, log);
      }
    }
  }

  /** Deliveries `i` to `j` of a paced read are at least `j - i` paces apart. */
  lemma {:induction false} PaceAdds(log: seq<Handed>, pace: nat, i: nat, j: nat)
    requires Paced(log, pace) && pace > 0 && i <= j < |log|
    ensures log[j].at - log[i].at >= (j - i) * pace
    decreases j - i
  {
    if i < j {
      PaceAdds(log, pace, i, j - 1);
      assert (j - i) * pace == (j - 1 - i) * pace + pace;
    }
  }

  /** A window of length `t` holds at most `t / pace + 1` deliveries. */
  lemma WindowBound(log: seq<Handed>, pace: nat, i: nat, j: nat, t: nat)
    requires Paced(log, pace) && pace > 0 && i <= j < |log| && log[j].at - log[i].at <= t
    ensures j - i + 1 <= t / pace + 1
  {
    PaceAdds(log, pace, i, j);
    WholePaces(j - i, pace, t);
  }

  lemma MulOrdered(a: nat, b: nat, c: nat)
    requires a <= b
    ensures a * c <= b * c
  {
  }

  lemma WholePaces(n: nat, pace: nat, t: nat)
    requires pace > 0 && n * pace <= t
    ensures n <= t / pace
  {
    var q, r := t / pace, t % pace;
    assert t == q * pace + r && r < pace;
    if q + 1 <= n {
      MulOrdered(q + 1, n, pace);
      assert false;
    }
  }

  /** The delay asked for when a sample comes too soon is exactly enough: a retry is too soon
      again if and only if it comes before the delay is over. */
  lemma RetryDelayExact(a: Reader, id: ReaderId, sn: int, now: int, later: int, v: Taking)
    requires a.read.Some? && a.read.value.lastSample < sn && a.read.value.pace != 0 && now - a.read.value.lastTs < a.read.value.pace
    requires v.Take?
    ensures Offer(a, id, sn, now, v).out.TryAgain? && Offer(a, id, sn, now, v).out.delay > 0
    ensures Offer(a, id, sn, later, v).out.HandedUp? <==> later >= now + Offer(a, id, sn, now, v).out.delay
  {
  }
}
