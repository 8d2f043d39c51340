/** A DDS reader's cache shared by the reads of several attachments: samples arrive at its
    end, every read goes through it at its own pace, and what all of them have passed is
    dismissed from its front. */
module ReaderCache {
  import opened SessionState
  import opened Workers
  import opened ReadLoop

  /** A registered read request: the attachment it belongs to, what was asked for, how much of
      the reader's history was dismissed when it was made, where it started, what it has handed
      up, and how many samples came back without being counted because the clock or the resource
      failed. */
  datatype Request = Request(a: Reader, spec: ReadSpec, base: nat, start: int, log: seq<Handed>, failed: nat)

  /** `history` is everything that ever arrived; all but the first `taken` is still cached.
      `dismissed` is the number last dismissed. */
  datatype DdsReader = DdsReader(history: seq<Cached>, taken: nat, dismissed: int, requests: seq<Request>)

  // ----- dismissing what every request has passed -----

  /** The lowest last sample of all requests; the default number 0 without any. */
  function MinLast(requests: seq<Request>): (m: int)
    requires forall k :: 0 <= k < |requests| ==> requests[k].a.read.Some?
    ensures forall k :: 0 <= k < |requests| ==> m <= Last(requests[k].a)
    ensures requests != [] ==> exists k :: 0 <= k < |requests| && m == Last(requests[k].a)
  {
    if requests == [] then 0
    else if |requests| == 1 then Last(requests[0].a)
    else
      var m := MinLast(requests[..|requests| - 1]);
      var last := Last(requests[|requests| - 1].a);
      if m >= last then last else m
  }

  datatype Dismissed = Dismissed(taken: nat, dismissed: int)

  /** Takes samples off the front while they are invalid or not above `target`, and until one
      that reaches it. */
  function TakeUpTo(history: seq<Cached>, taken: nat, dismissed: int, target: int): (d: Dismissed)
    requires taken <= |history|
    ensures taken <= d.taken <= |history|
    ensures forall i :: taken <= i < d.taken && history[i].valid ==> history[i].sn <= target
    ensures Ascending(history) ==> forall i :: d.taken <= i < |history| ==> history[i].sn > target
    ensures d.taken == taken ==> d.dismissed == dismissed
    ensures d.taken > taken ==> d.dismissed == history[d.taken - 1].sn
    decreases |history| - taken
  {
    if taken == |history| || (history[taken].valid && history[taken].sn > target) then Dismissed(taken, dismissed)
    else if history[taken].sn >= target then Dismissed(taken + 1, history[taken].sn)
    else TakeUpTo(history, taken + 1, history[taken].sn, target)
  }

  predicate Registered(r: DdsReader) {
    r.taken <= |r.history| && forall k :: 0 <= k < |r.requests| ==> r.requests[k].a.read.Some? && r.requests[k].a.read.value.open
  }

  function RequestsUpdated(r: DdsReader): DdsReader
    requires Registered(r)
  {
    var target := MinLast(r.requests);
    if target <= r.dismissed then r else
    var d := TakeUpTo(r.history, r.taken, r.dismissed, target);
    r.(taken := d.taken, dismissed := d.dismissed)
  }

  // ----- the steps -----

  datatype Event =
    | Arrive(c: Cached)
    | NewRequest(a: Reader, policy: StartPoint, spec: ReadSpec)
    | TryRead(k: nat, id: ReaderId, now: int, later: int, vs: int -> Taking)
    | GetBack(k: nat, i: nat, e: Env)
    | Complete(k: nat)

  /** The request that a READ makes. */
  function Asked(r: DdsReader, a: Reader, spec: ReadSpec): Request {
    Request(a.(read := Some(FreshRead(a, spec))), spec, r.taken, StartOf(a, spec.from), [], 0)
  }

  function Happens(r: DdsReader, ev: Event): (t: DdsReader)
    requires Registered(r)
    ensures Registered(t)
  {
    match ev
    case Arrive(c) =>
      if r.history == [] || r.history[|r.history| - 1].sn < c.sn then r.(history := r.history + [c]) else r
    case NewRequest(a, policy, spec) =>
      r.(requests := r.requests + [Asked(r, a, spec.(from := policy))])
    case TryRead(k, id, now, later, vs) =>
      if k >= |r.requests| || r.requests[k].a.read.value.complete then r else
      var q := r.requests[k];
      var b := Attempt(q.a, id, r.history[r.taken..], now, later, vs);
      AttemptKeepsOpen(q.a, id, r.history[r.taken..], now, later, vs);
      var r' := r.(requests := r.requests[k := q.(a := b.a, log := q.log + b.log)]);
      if b.log != [] then RequestsUpdated(r') else r'
    case GetBack(k, i, e) =>
      if k >= |r.requests| || i >= |r.requests[k].a.read.value.samples| then r else
      var q := r.requests[k];
      var g := GiveBack(q.a.read.value, i, e);
      if g.v.Finish? then r.(requests := Remove(r.requests, k))
      else r.(requests := r.requests[k := q.(a := q.a.(read := Some(g.r)), failed := q.failed + (if e.ok then 0 else 1))])
    case Complete(k) =>
      if k < |r.requests| then r.(requests := Remove(r.requests, k)) else r
  }

  lemma {:induction false} BatchKeepsOpen(a: Reader, id: ReaderId, cache: seq<Cached>, now: int, vs: int -> Taking)
    requires a.read.Some? && a.read.value.open
    ensures Batch(a, id, cache, now, vs).a.read.value.open
    decreases |cache|
  {
    if cache != [] {
      var o := if cache[0].valid then Offer(a, id, cache[0].sn, now, vs(cache[0].sn)) else Offered(a, OldSample);
      if o.out.OldSample? || o.out.HandedUp? {
        BatchKeepsOpen(o.a, id, cache[1..], now, vs);
      }
    }
  }

  lemma AttemptKeepsOpen(a: Reader, id: ReaderId, cache: seq<Cached>, now: int, later: int, vs: int -> Taking)
    requires a.read.Some? && a.read.value.open
    ensures Attempt(a, id, cache, now, later, vs).a.read.value.open
  {
    BatchKeepsOpen(a, id, cache, now, vs);
  }

  function After(r: DdsReader, evs: seq<Event>): (t: DdsReader)
    requires Registered(r)
    ensures Registered(t)
    decreases |evs|
  {
    if evs == [] then r else After(Happens(r, evs[0]), evs[1..])
  }

  // ----- nothing lost, nothing repeated -----

  /** The read is paced and bounded as it was asked to be. */
  predicate AsAsked(r: Read, spec: ReadSpec) {
    r.pace == spec.pace && r.max == spec.max && r.maxElapsed == spec.maxElapsed && r.start == spec.start
  }

  /** The request has handed up exactly the valid samples, of those not dismissed before it
      was made, above its start and up to where it is; what was dismissed since it had passed;
      its deliveries keep the pace asked for. */
  ghost predicate Exact(history: seq<Cached>, taken: nat, q: Request) {
    && q.a.read.Some? && q.a.read.value.open && q.base <= taken <= |history| && q.start <= Last(q.a)
    && Numbers(q.log) == Wanted(history[q.base..], q.start, Last(q.a))
    && CaughtUp(history[q.base..taken], Last(q.a))
    && Within(history, q.start, Last(q.a))
    && AsAsked(q.a.read.value, q.spec) && Paced(q.log, q.spec.pace) && EndsAt(q.log, q.a)
    && AllCounted(q.a.read.value, |q.log|, q.failed)
  }

  /** Of the samples handed up each is pending, counted as received, or came back uncounted. */
  predicate AllCounted(r: Read, handed: nat, failed: nat) { r.rcvd + |r.samples| + failed == handed }

  /** A read is where it started, or at a sample that has arrived. */
  predicate Within(history: seq<Cached>, start: int, last: int) {
    last == start || (history != [] && last <= history[|history| - 1].sn)
  }

  ghost predicate AllExact(r: DdsReader) {
    Ascending(r.history) && r.taken <= |r.history| && forall k :: 0 <= k < |r.requests| ==> Exact(r.history, r.taken, r.requests[k])
  }

  lemma {:induction false} WantedConcat(a: seq<Cached>, b: seq<Cached>, low: int, high: int)
    ensures Wanted(a + b, low, high) == Wanted(a, low, high) + Wanted(b, low, high)
  {
    if a == [] {
      assert a + b == b;
    } else {
      assert (a + b)[1..] == a[1..] + b;
      WantedConcat(a[1..], b, low, high);
    }
  }

  /** In an ascending cache the wanted numbers may be cut at any number in between. */
  lemma {:induction false} WantedCut(cache: seq<Cached>, low: int, mid: int, high: int)
    requires Ascending(cache) && low <= mid <= high
    ensures Wanted(cache, low, high) == Wanted(cache, low, mid) + Wanted(cache, mid, high)
  {
    if cache != [] {
      WantedCut(cache[1..], low, mid, high);
      if cache[0].sn > mid {
        NoneWanted(cache[1..], low, mid);
      }
    }
  }

  lemma {:induction false} NumbersConcat(a: seq<Handed>, b: seq<Handed>)
    ensures Numbers(a + b) == Numbers(a) + Numbers(b)
  {
    if a == [] {
      assert a + b == b;
    } else {
      assert (a + b)[1..] == a[1..] + b;
      NumbersConcat(a[1..], b);
    }
  }

  lemma {:induction false} BatchWithin(a: Reader, id: ReaderId, cache: seq<Cached>, now: int, vs: int -> Taking)
    requires a.read.Some? && Ascending(cache)
    ensures Within(cache, Last(a), Last(Batch(a, id, cache, now, vs).a))
    decreases |cache|
  {
    if cache != [] {
      var o := if cache[0].valid then Offer(a, id, cache[0].sn, now, vs(cache[0].sn)) else Offered(a, OldSample);
      if o.out.OldSample? || o.out.HandedUp? {
        BatchWithin(o.a, id, cache[1..], now, vs);
      }
    }
  }

  lemma {:induction false} BatchCounted(a: Reader, id: ReaderId, cache: seq<Cached>, now: int, vs: int -> Taking, handed: nat, failed: nat)
    requires a.read.Some? && AllCounted(a.read.value, handed, failed)
    ensures var b := Batch(a, id, cache, now, vs); AllCounted(b.a.read.value, handed + |b.log|, failed)
    decreases |cache|
  {
    if cache != [] {
      var o := if cache[0].valid then Offer(a, id, cache[0].sn, now, vs(cache[0].sn)) else Offered(a, OldSample);
      if o.out.OldSample? {
        BatchCounted(a, id, cache[1..], now, vs, handed, failed);
      } else if o.out.HandedUp? {
        BatchCounted(o.a, id, cache[1..], now, vs, handed + 1, failed);
      }
    }
  }

  /** Handing up what is wanted of the cache continues what was handed up before. */
  lemma WantedContinues(history: seq<Cached>, base: nat, taken: nat, start: int, low: int, high: int)
    requires Ascending(history) && base <= taken <= |history| && start <= low <= high && CaughtUp(history[base..taken], low)
    ensures Wanted(history[base..], start, high) == Wanted(history[base..], start, low) + Wanted(history[taken..], low, high)
  {
    var seen, cache := history[base..taken], history[taken..];
    WantedCut(history[base..], start, low, high);
    WantedConcat(seen, cache, low, high);
    assert seen + cache == history[base..];
    NoneWanted(seen, low, high);
  }

  lemma {:induction false} BatchAsAsked(a: Reader, id: ReaderId, cache: seq<Cached>, now: int, vs: int -> Taking, spec: ReadSpec)
    requires a.read.Some? && AsAsked(a.read.value, spec)
    ensures AsAsked(Batch(a, id, cache, now, vs).a.read.value, spec)
    decreases |cache|
  {
    if cache != [] {
      var o := if cache[0].valid then Offer(a, id, cache[0].sn, now, vs(cache[0].sn)) else Offered(a, OldSample);
      if o.out.OldSample? || o.out.HandedUp? {
        BatchAsAsked(o.a, id, cache[1..], now, vs, spec);
      }
    }
  }

  lemma BatchKeepsExact(history: seq<Cached>, taken: nat, q: Request, id: ReaderId, now: int, vs: int -> Taking)
    requires Ascending(history) && Exact(history, taken, q)
    ensures var b := Batch(q.a, id, history[taken..], now, vs); Exact(history, taken, q.(a := b.a, log := q.log + b.log))
  {
    var cache := history[taken..];
    var b := Batch(q.a, id, cache, now, vs);
    BatchExact(q.a, id, cache, now, vs);
    BatchForward(q.a, id, cache, now, vs);
    BatchWithin(q.a, id, cache, now, vs);
    BatchPaced(q.a, id, cache, now, vs, q.log);
    BatchKeepsOpen(q.a, id, cache, now, vs);
    BatchAsAsked(q.a, id, cache, now, vs, q.spec);
    BatchCounted(q.a, id, cache, now, vs, |q.log|, q.failed);
    NumbersConcat(q.log, b.log);
    WantedContinues(history, q.base, taken, q.start, Last(q.a), Last(b.a));
  }

  lemma StatusKeepsExact(history: seq<Cached>, taken: nat, q: Request, r: Read, failed: nat)
    requires Exact(history, taken, q) && r.open && r.lastSample == Last(q.a) && r.lastTs == q.a.read.value.lastTs && AsAsked(r, q.spec)
    requires AllCounted(r, |q.log|, failed)
    ensures Exact(history, taken, q.(a := q.a.(read := Some(r)), failed := failed))
  {
  }

  lemma AttemptKeepsExact(history: seq<Cached>, taken: nat, q: Request, id: ReaderId, now: int, later: int, vs: int -> Taking)
    requires Ascending(history) && Exact(history, taken, q)
    ensures var b := Attempt(q.a, id, history[taken..], now, later, vs); Exact(history, taken, q.(a := b.a, log := q.log + b.log))
  {
    BatchKeepsExact(history, taken, q, id, now, vs);
    assert q.log + [] == q.log;
    var b := Batch(q.a, id, history[taken..], now, vs);
    var q1 := q.(a := b.a, log := q.log + b.log);
    var at := Attempt(q.a, id, history[taken..], now, later, vs);
    if IsComplete(q.a.read.value, now) {
      StatusKeepsExact(history, taken, q, at.a.read.value, q.failed);
    } else {
      StatusKeepsExact(history, taken, q1, at.a.read.value, q.failed);
    }
  }

  lemma TakenKeepsExact(history: seq<Cached>, taken: nat, taken': nat, q: Request)
    requires Exact(history, taken, q) && taken <= taken' <= |history|
    requires forall i :: taken <= i < taken' && history[i].valid ==> history[i].sn <= Last(q.a)
    ensures Exact(history, taken', q)
  {
    forall i | 0 <= i < |history[q.base..taken']| && history[q.base..taken'][i].valid
      ensures history[q.base..taken'][i].sn <= Last(q.a)
    {
      if q.base + i < taken {
        assert history[q.base..taken][i] == history[q.base + i];
      }
    }
  }

  /** Dismissing what every request has passed takes nothing from any of them. */
  lemma UpdateKeepsExact(r: DdsReader)
    requires AllExact(r)
    ensures Registered(r) && AllExact(RequestsUpdated(r))
  {
    var t := RequestsUpdated(r);
    forall k | 0 <= k < |t.requests|
      ensures Exact(t.history, t.taken, t.requests[k])
    {
      TakenKeepsExact(r.history, r.taken, t.taken, r.requests[k]);
    }
  }

  lemma ArriveKeepsExact(history: seq<Cached>, taken: nat, q: Request, c: Cached)
    requires Exact(history, taken, q) && (history == [] || history[|history| - 1].sn < c.sn)
    ensures Exact(history + [c], taken, q)
  {
    var h := history + [c];
    assert h[q.base..] == history[q.base..] + [c];
    WantedConcat(history[q.base..], [c], q.start, Last(q.a));
    assert Wanted([c], q.start, Last(q.a)) == [];
    assert h[q.base..taken] == history[q.base..taken];
  }

  lemma NewIsExact(r: DdsReader, a: Reader, spec: ReadSpec)
    requires r.taken <= |r.history|
    ensures Exact(r.history, r.taken, Asked(r, a, spec))
  {
    var q := Asked(r, a, spec);
    NoneWanted(r.history[r.taken..], q.start, q.start);
  }

  lemma TryKeepsExact(r: DdsReader, k: nat, id: ReaderId, now: int, later: int, vs: int -> Taking)
    requires AllExact(r) && k < |r.requests|
    ensures var q := r.requests[k];
            var b := Attempt(q.a, id, r.history[r.taken..], now, later, vs);
            AllExact(r.(requests := r.requests[k := q.(a := b.a, log := q.log + b.log)]))
  {
    AttemptKeepsExact(r.history, r.taken, r.requests[k], id, now, later, vs);
  }

  lemma PutKeepsExact(r: DdsReader, k: nat, q: Request)
    requires AllExact(r) && k < |r.requests| && Exact(r.history, r.taken, q)
    ensures AllExact(r.(requests := r.requests[k := q]))
  {
  }

  lemma RemoveKeepsExact(r: DdsReader, k: nat)
    requires AllExact(r) && k < |r.requests|
    ensures AllExact(r.(requests := Remove(r.requests, k)))
  {
    var rest := Remove(r.requests, k);
    assert forall j :: 0 <= j < |rest| ==> rest[j] == r.requests[if j < k then j else j + 1];
  }

  lemma GetBackKeepsExact(r: DdsReader, k: nat, i: nat, e: Env)
    requires AllExact(r) && Registered(r) && k < |r.requests| && i < |r.requests[k].a.read.value.samples|
    ensures AllExact(Happens(r, GetBack(k, i, e)))
  {
    var q := r.requests[k];
    var g := GiveBack(q.a.read.value, i, e);
    if g.v.Finish? {
      RemoveKeepsExact(r, k);
    } else {
      var failed := q.failed + (if e.ok then 0 else 1);
      StatusKeepsExact(r.history, r.taken, q, g.r, failed);
      PutKeepsExact(r, k, q.(a := q.a.(read := Some(g.r)), failed := failed));
    }
  }

  lemma StepKeepsExact(r: DdsReader, ev: Event)
    requires AllExact(r) && Registered(r)
    ensures AllExact(Happens(r, ev))
  {
    match ev {
      case Arrive(c) =>
        if r.history == [] || r.history[|r.history| - 1].sn < c.sn {
          forall k | 0 <= k < |r.requests|
            ensures Exact(r.history + [c], r.taken, r.requests[k])
          {
            ArriveKeepsExact(r.history, r.taken, r.requests[k], c);
          }
        }
      case NewRequest(a, policy, spec) =>
        NewIsExact(r, a, spec.(from := policy));
      case TryRead(k, id, now, later, vs) =>
        if k < |r.requests| && !r.requests[k].a.read.value.complete {
          var q := r.requests[k];
          TryKeepsExact(r, k, id, now, later, vs);
          var b := Attempt(q.a, id, r.history[r.taken..], now, later, vs);
          UpdateKeepsExact(r.(requests := r.requests[k := q.(a := b.a, log := q.log + b.log)]));
        }
      case GetBack(k, i, e) =>
        if k < |r.requests| && i < |r.requests[k].a.read.value.samples| {
          GetBackKeepsExact(r, k, i, e);
        }
      case Complete(k) =>
    }
  }

  const NOTHING := DdsReader([], 0, 0, [])

  lemma {:induction false} AlwaysExact(r: DdsReader, evs: seq<Event>)
    requires Registered(r) && AllExact(r)
    ensures AllExact(After(r, evs))
    decreases |evs|
  {
    if evs != [] {
      StepKeepsExact(r, evs[0]);
      AlwaysExact(Happens(r, evs[0]), evs[1..]);
    }
  }

  /** Over any run of arrivals, reads, retries and errors of any number of requests: each
      request has handed up exactly the valid samples above its start and up to where it is,
      in order, none lost to the dismissals for others and none repeated, at the pace it was asked
      for; and each of them is pending, counted, or came back uncounted. */
  lemma NoneLostNoneRepeated(evs: seq<Event>, k: nat)
    requires k < |After(NOTHING, evs).requests|
    ensures var r := After(NOTHING, evs);
            var q := r.requests[k];
            && q.a.read.Some? && q.base <= |r.history|
            && Numbers(q.log) == Wanted(r.history[q.base..], q.start, Last(q.a))
            && AsAsked(q.a.read.value, q.spec) && Paced(q.log, q.spec.pace)
            && AllCounted(q.a.read.value, |q.log|, q.failed)
  {
    AlwaysExact(NOTHING, evs);
  }

  /** Every arrival that is newer than all before is kept, and no other; every READ adds a request
      and every completion takes its own away. */
  lemma EventsAdd(r: DdsReader, c: Cached, a: Reader, policy: StartPoint, spec: ReadSpec, k: nat)
    requires Registered(r) && Ascending(r.history)
    ensures Happens(r, Arrive(c)) ==
            if forall i :: 0 <= i < |r.history| ==> r.history[i].sn < c.sn then r.(history := r.history + [c]) else r
    ensures var t := Happens(r, NewRequest(a, policy, spec));
            && t == r.(requests := t.requests) && |t.requests| == |r.requests| + 1 && r.requests <= t.requests
            && t.requests[|r.requests|].spec == spec.(from := policy)
    ensures k < |r.requests| ==> Happens(r, Complete(k)) == r.(requests := r.requests[..k] + r.requests[k + 1..])
  {
  }

  lemma TriedCatchesUp(r: DdsReader, k: nat, id: ReaderId, now: int, later: int, vs: int -> Taking)
    requires AllExact(r) && Registered(r) && k < |r.requests| && !Over(r.requests[k].a.read.value, now)
    ensures var q := r.requests[k];
            var b := Attempt(q.a, id, r.history[r.taken..], now, later, vs);
            b.out.AtEnd? ==> CaughtUp(r.history[q.base..], Last(b.a))
  {
    var q := r.requests[k];
    var b := Attempt(q.a, id, r.history[r.taken..], now, later, vs);
    AttemptExact(q.a, id, r.history[r.taken..], now, later, vs);
    BatchForward(q.a, id, r.history[r.taken..], now, vs);
    if b.out.AtEnd? {
      forall i | 0 <= i < |r.history[q.base..]| && r.history[q.base..][i].valid
        ensures r.history[q.base..][i].sn <= Last(b.a)
      {
        if q.base + i < r.taken {
          assert r.history[q.base..r.taken][i] == r.history[q.base..][i];
        } else {
          assert r.history[r.taken..][q.base + i - r.taken] == r.history[q.base..][i];
        }
      }
    }
  }

  lemma TriedIs(r: DdsReader, k: nat, id: ReaderId, now: int, later: int, vs: int -> Taking)
    requires Registered(r) && k < |r.requests|
    ensures var q := r.requests[k];
            var t := Happens(r, TryRead(k, id, now, later, vs));
            if q.a.read.value.complete then t == r
            else
              var b := Attempt(q.a, id, r.history[r.taken..], now, later, vs);
              t.history == r.history && t.requests == r.requests[k := q.(a := b.a, log := q.log + b.log)]
  {
    var q := r.requests[k];
    AttemptKeepsOpen(q.a, id, r.history[r.taken..], now, later, vs);
  }

  /** In any run: an attempt that comes to the end of the cache, on a read that was not over, has
      handed up every valid sample above the request's start of all that arrived since it was made;
      on a read that is over, and on one marked complete, an attempt hands up nothing. */
  lemma CatchesUp(evs: seq<Event>, k: nat, id: ReaderId, now: int, later: int, vs: int -> Taking)
    requires k < |After(NOTHING, evs).requests|
    ensures var r := After(NOTHING, evs);
            var t := Happens(r, TryRead(k, id, now, later, vs));
            && k < |t.requests| && t.requests[k].a.read.Some? && r.requests[k].base <= |r.history| && t.history == r.history
            && (r.requests[k].a.read.value.complete ==> t == r)
            && (Over(r.requests[k].a.read.value, now) ==> t.requests[k].log == r.requests[k].log)
            && (!r.requests[k].a.read.value.complete && !Over(r.requests[k].a.read.value, now)
                && Attempt(r.requests[k].a, id, r.history[r.taken..], now, later, vs).out.AtEnd? ==>
                  CaughtUp(r.history[r.requests[k].base..], Last(t.requests[k].a)))
  {
    AlwaysExact(NOTHING, evs);
    var r := After(NOTHING, evs);
    TriedIs(r, k, id, now, later, vs);
    AttemptExact(r.requests[k].a, id, r.history[r.taken..], now, later, vs);
    if !Over(r.requests[k].a.read.value, now) {
      TriedCatchesUp(r, k, id, now, later, vs);
    }
  }

  // ----- nothing kept that all have passed -----

  /** The number last dismissed is that of the sample last taken off. */
  predicate FrontIs(r: DdsReader) {
    && r.taken <= |r.history| && (r.taken == 0 ==> r.dismissed == 0)
    && (r.taken > 0 ==> r.dismissed == r.history[r.taken - 1].sn)
  }

  /** Of the valid samples in the cache an update dismisses exactly those that every request has
      passed. Sample numbers are positive. */
  lemma UpdateExactly(r: DdsReader, i: nat)
    requires Registered(r) && FrontIs(r) && Ascending(r.history)
    requires r.taken <= i < |r.history| && r.history[i].valid && r.history[i].sn > 0
    ensures i < RequestsUpdated(r).taken <==> r.history[i].sn <= MinLast(r.requests)
  {
    var target := MinLast(r.requests);
    if target > r.dismissed {
      var d := TakeUpTo(r.history, r.taken, r.dismissed, target);
    }
  }

  lemma StepKeepsFront(r: DdsReader, ev: Event)
    requires Registered(r) && FrontIs(r)
    ensures FrontIs(Happens(r, ev))
  {
  }

  lemma {:induction false} AlwaysFront(r: DdsReader, evs: seq<Event>)
    requires Registered(r) && FrontIs(r)
    ensures FrontIs(After(r, evs))
    decreases |evs|
  {
    if evs != [] {
      StepKeepsFront(r, evs[0]);
      AlwaysFront(Happens(r, evs[0]), evs[1..]);
    }
  }

  /** In any run: an attempt that hands up something leaves a valid sample in the cache exactly if
      some request has still to pass it. */
  lemma KeptExactly(evs: seq<Event>, k: nat, id: ReaderId, now: int, later: int, vs: int -> Taking, i: nat)
    requires var r := After(NOTHING, evs);
             && k < |r.requests| && !r.requests[k].a.read.value.complete
             && r.taken <= i < |r.history| && r.history[i].valid && r.history[i].sn > 0
             && Attempt(r.requests[k].a, id, r.history[r.taken..], now, later, vs).log != []
    ensures var t := Happens(After(NOTHING, evs), TryRead(k, id, now, later, vs));
            i >= t.taken <==> exists q :: 0 <= q < |t.requests| && t.history[i].sn > Last(t.requests[q].a)
  {
    AlwaysExact(NOTHING, evs);
    AlwaysFront(NOTHING, evs);
    var r := After(NOTHING, evs);
    var q := r.requests[k];
    var b := Attempt(q.a, id, r.history[r.taken..], now, later, vs);
    AttemptKeepsOpen(q.a, id, r.history[r.taken..], now, later, vs);
    var r1 := r.(requests := r.requests[k := q.(a := b.a, log := q.log + b.log)]);
    UpdateExactly(r1, i);
  }

  // ----- dismissing in place -----

  class SharedReader {
    var history: seq<Cached>
    var taken: nat
    var dismissed: int
    var requests: seq<Request>

    constructor ()
      ensures View() == NOTHING
    {
      history, taken, dismissed, requests := [], 0, 0, [];
    }

    function View(): DdsReader
      reads this
    {
      DdsReader(history, taken, dismissed, requests)
    }

    method FindMinLast() returns (m: int)
      requires Registered(View())
      ensures m == MinLast(requests)
    {
      m := 0;
      var k := 0;
      while k < |requests|
        invariant k <= |requests| && m == MinLast(requests[..k])
      {
        var last := Last(requests[k].a);
        if k == 0 || m >= last {
          m := last;
        }
        k := k + 1;
        assert requests[..k][..k - 1] == requests[..k - 1] && requests[..k][k - 1] == requests[k - 1];
      }
      assert requests[..k] == requests;
    }

    /** Takes the samples off the cache that all requests have passed, looking at each first. */
    method DismissPassed()
      requires Registered(View())
      modifies this
      ensures View() == RequestsUpdated(old(View()))
    {
      var target := FindMinLast();
      if target <= dismissed {
        return;
      }
      var more := true;
      ghost var end := TakeUpTo(history, taken, dismissed, target);
      while more
        invariant taken <= |history| && history == old(history) && requests == old(requests)
        invariant if more then end == TakeUpTo(history, taken, dismissed, target) else end == Dismissed(taken, dismissed)
        decreases more, |history| - taken
      {
        if taken == |history| || (history[taken].valid && history[taken].sn > target) {
          more := false;
        } else {
          dismissed := history[taken].sn;
          taken := taken + 1;
          more := dismissed < target;
        }
      }
    }
  }
}
