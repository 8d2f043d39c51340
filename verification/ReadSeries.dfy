/** One attachment over any series of reads, cancellations and re-reads: whether a sample is
    ever forwarded twice depends on the start point the agent is configured with. */
module ReadSeries {
  import opened SessionState
  import opened Workers
  import opened ReadLoop

  /** `log` lists the numbers of all samples the attachment has forwarded, over all its reads. */
  datatype Series = Series(a: Reader, log: seq<int>)

  datatype Event =
    | Arrives(sn: int, now: int, v: Taking)
    | Returns(i: nat, e: Env)
    | Cancels
    | Reads(spec: ReadSpec)

  /** A read is cancelled, by request or for another read, only with nothing pending. */
  predicate MayCancel(a: Reader) { a.read.Some? ==> a.read.value.samples == [] }

  function Happens(s: Series, policy: StartPoint, id: ReaderId, ev: Event): Series {
    match ev
    case Arrives(sn, now, v) =>
      if s.a.read.None? then s else
      var o := Offer(s.a, id, sn, now, v);
      Series(o.a, if o.out.HandedUp? then s.log + [sn] else s.log)
    case Returns(i, e) =>
      if s.a.read.None? || i >= |s.a.read.value.samples| then s else
      var g := GiveBack(s.a.read.value, i, e);
      s.(a := s.a.(read := Some(g.r), lastReturned := Max(s.a.lastReturned, s.a.read.value.samples[i].sn)))
    case Cancels =>
      if MayCancel(s.a) then s.(a := s.a.(read := None)) else s
    case Reads(spec) =>
      if MayCancel(s.a) then s.(a := s.a.(read := Some(FreshRead(s.a, spec.(from := policy))))) else s
  }

  function After(s: Series, policy: StartPoint, id: ReaderId, evs: seq<Event>): Series
    decreases |evs|
  {
    if evs == [] then s else After(Happens(s, policy, id, evs[0]), policy, id, evs[1..])
  }

  const FRESH := Series(Reader(None, 0, false, 0, 0), [])

  predicate Increasing(log: seq<int>) { forall i, j :: 0 <= i < j < |log| ==> log[i] < log[j] }

  /** The number forwarded last is returned already or still pending. */
  ghost predicate LastIsOut(a: Reader) {
    a.lastReturned == a.lastForwarded
    || (a.read.Some? && exists i :: 0 <= i < |a.read.value.samples| && a.read.value.samples[i].sn == a.lastForwarded)
  }

  ghost predicate Inv(s: Series) {
    && Increasing(s.log) && (forall i :: 0 <= i < |s.log| ==> s.log[i] <= s.a.lastForwarded)
    && s.a.lastReturned <= s.a.lastForwarded
    && (s.a.read.Some? ==>
          && s.a.read.value.lastSample == s.a.lastForwarded
          && forall i :: 0 <= i < |s.a.read.value.samples| ==> s.a.read.value.samples[i].sn <= s.a.lastForwarded)
    && LastIsOut(s.a)
  }

  lemma ArrivalKeepsInv(s: Series, id: ReaderId, sn: int, now: int, v: Taking)
    requires Inv(s) && s.a.read.Some?
    ensures var o := Offer(s.a, id, sn, now, v); Inv(Series(o.a, if o.out.HandedUp? then s.log + [sn] else s.log))
  {
    var o := Offer(s.a, id, sn, now, v);
    if o.out.HandedUp? && v.kept.Some? {
      var k := |s.a.read.value.samples|;
      assert o.a.read.value.samples[k].sn == sn;
    }
  }

  lemma ReturnKeepsInv(s: Series, i: nat, e: Env)
    requires Inv(s) && s.a.read.Some? && i < |s.a.read.value.samples|
    ensures var g := GiveBack(s.a.read.value, i, e);
            Inv(s.(a := s.a.(read := Some(g.r), lastReturned := Max(s.a.lastReturned, s.a.read.value.samples[i].sn))))
  {
    var xs := s.a.read.value.samples;
    var g := GiveBack(s.a.read.value, i, e);
    if s.a.lastReturned != s.a.lastForwarded && xs[i].sn != s.a.lastForwarded {
      var k :| 0 <= k < |xs| && xs[k].sn == s.a.lastForwarded;
      assert g.r.samples[if k < i then k else k - 1] == xs[k];
    }
  }

  lemma {:induction false} RunKeepsInv(s: Series, policy: StartPoint, id: ReaderId, evs: seq<Event>)
    requires Inv(s) && policy != FirstCached
    ensures Inv(After(s, policy, id, evs))
    decreases |evs|
  {
    if evs != [] {
      match evs[0] {
        case Arrives(sn, now, v) =>
          if s.a.read.Some? {
            ArrivalKeepsInv(s, id, sn, now, v);
          }
        case Returns(i, e) =>
          if s.a.read.Some? && i < |s.a.read.value.samples| {
            ReturnKeepsInv(s, i, e);
          }
        case _ =>
      }
      RunKeepsInv(Happens(s, policy, id, evs[0]), policy, id, evs[1..]);
    }
  }

  /** In every run the numbers forwarded strictly increase. */
  ghost predicate NeverTwice(policy: StartPoint) {
    forall evs: seq<Event>, id :: Increasing(After(FRESH, policy, id, evs).log)
  }

  /** In every run the last number returned does not pass the last one forwarded. */
  ghost predicate ReturnedBehind(policy: StartPoint) {
    forall evs: seq<Event>, id :: After(FRESH, policy, id, evs).a.lastReturned <= After(FRESH, policy, id, evs).a.lastForwarded
  }

  const READ := Reads(ReadSpec(FirstCached, 0, 0, 0, 0))

  const TAKEN: Taking := Take(None)

  const KEPT: Taking := Take(Some(0))

  /** From the first cached sample on again: 5 and then 1, which is still pending. */
  const BACKWARDS: seq<Event> := [READ, Arrives(5, 0, TAKEN), READ, Arrives(1, 0, KEPT)]

  lemma GoesBackwards()
    ensures var t := After(FRESH, FirstCached, 1, BACKWARDS);
            t.log == [5, 1] && t.a.lastReturned == 5 && t.a.lastForwarded == 1
  {
    var s1 := Happens(FRESH, FirstCached, 1, BACKWARDS[0]);
    var s2 := Happens(s1, FirstCached, 1, BACKWARDS[1]);
    var s3 := Happens(s2, FirstCached, 1, BACKWARDS[2]);
    var s4 := Happens(s3, FirstCached, 1, BACKWARDS[3]);
    assert s2.log == [5] && s2.a.lastReturned == 5;
    assert s4.log == [5, 1] && s4.a.lastForwarded == 1 && s4.a.lastReturned == 5;
    After4(FRESH, FirstCached, 1, BACKWARDS);
  }

  lemma Unfold(s: Series, policy: StartPoint, id: ReaderId, evs: seq<Event>, k: nat)
    requires k < |evs|
    ensures After(s, policy, id, evs[k..]) == After(Happens(s, policy, id, evs[k]), policy, id, evs[k + 1..])
  {
    assert evs[k..][1..] == evs[k + 1..];
  }

  lemma After4(s: Series, policy: StartPoint, id: ReaderId, evs: seq<Event>)
    requires |evs| == 4
    ensures After(s, policy, id, evs)
            == Happens(Happens(Happens(Happens(s, policy, id, evs[0]), policy, id, evs[1]), policy, id, evs[2]), policy, id, evs[3])
  {
    assert evs[0..] == evs && evs[4..] == [];
    var s1 := Happens(s, policy, id, evs[0]);
    var s2 := Happens(s1, policy, id, evs[1]);
    var s3 := Happens(s2, policy, id, evs[2]);
    Unfold(s, policy, id, evs, 0);
    Unfold(s1, policy, id, evs, 1);
    Unfold(s2, policy, id, evs, 2);
    Unfold(s3, policy, id, evs, 3);
  }

  /** Forwarded numbers strictly increase over every series of reads, and returned numbers stay
      behind them, exactly when reads do not start at the first cached sample. Starting at the
      last returned number is as safe as at the last forwarded one, since a read goes away only
      with nothing pending. */
  lemma StartPointDecides(policy: StartPoint)
    ensures NeverTwice(policy) <==> policy != FirstCached
    ensures ReturnedBehind(policy) <==> policy != FirstCached
  {
    if policy == FirstCached {
      GoesBackwards();
      var t := After(FRESH, FirstCached, 1, BACKWARDS);
      assert !Increasing(t.log) by {
        assert t.log[0] > t.log[1];
      }
    } else {
      forall evs: seq<Event>, id
        ensures Inv(After(FRESH, policy, id, evs))
      {
        RunKeepsInv(FRESH, policy, id, evs);
      }
    }
  }
}
