/** The sweep of completed reads: what it leaves active, and why the return of the last
    pending sample always ends a read that was once complete. */
module Sweep {
  import opened SessionState
  import opened Loans
  import Dismissal
  import opened ClientSessions

  /** The read is marked complete, was so at time `t0`, and is still with its DDS reader. */
  predicate Due(r: Read, t0: int) { r.complete && r.open && IsComplete(r, t0) }

  /** Every outstanding loan can be given back, at a time not before `t0`. */
  ghost predicate Answers(fs: seq<Forward>, env: nat -> Env, t0: int) {
    forall i :: 0 <= i < |fs| ==> env(fs[i].loan).ok && env(fs[i].loan).now >= t0
  }

  predicate AtMost(s: Session, id: ReaderId, t0: int) { HasRead(s, id) ==> Due(ReadOf(s, id), t0) }

  predicate Pending(s: Session, id: ReaderId) { HasRead(s, id) ==> ReadOf(s, id).samples != [] }

  /** Completeness only grows, with time and with every sample given back. */
  lemma CompleteStays(r: Read, r': Read, now: int, now': int)
    requires IsComplete(r, now) && now <= now' && r.rcvd <= r'.rcvd
    requires r'.max == r.max && r'.maxElapsed == r.maxElapsed && r'.start == r.start
    ensures IsComplete(r', now')
  {
  }

  /** A read that was complete once stays so, and ends with its last pending sample. */
  lemma LastReturnEnds(r: Read, i: nat, e: Env, t0: int)
    requires i < |r.samples| && Due(r, t0) && e.ok && e.now >= t0
    ensures var g := GiveBack(r, i, e); (g.v.Finish? <==> g.r.samples == []) && (!g.v.Finish? ==> Due(g.r, t0))
  {
    CompleteStays(r, r.(samples := Remove(r.samples, i), rcvd := r.rcvd + 1), t0, e.now);
    CompleteStays(r, r.(samples := Remove(r.samples, i), rcvd := r.rcvd + 1), t0, t0);
  }

  lemma DropKeepsAnswers(s: Session, j: nat, env: nat -> Env, t0: int)
    requires PendingExact(s) && BuffersApart(s) && j < |s.forwards| && Answers(s.forwards, env, t0)
    ensures Answers(Settled(DropForward(s, j, env)).forwards, env, t0)
  {
    var _ := DropForwardEffect(s, j, env);
    var t := Settled(DropForward(s, j, env));
    forall i | 0 <= i < |t.forwards|
      ensures env(t.forwards[i].loan).ok && env(t.forwards[i].loan).now >= t0
    {
      assert t.forwards[i] == s.forwards[if i < j then i else i + 1];
    }
  }

  lemma DropKeepsDue(s: Session, j: nat, env: nat -> Env, id: ReaderId, t0: int)
    requires PendingExact(s) && BuffersApart(s) && j < |s.forwards| && Answers(s.forwards, env, t0) && AtMost(s, id, t0)
    ensures var t := Settled(DropForward(s, j, env));
            && AtMost(t, id, t0) && Answers(t.forwards, env, t0) && (HasRead(t, id) ==> HasRead(s, id))
            && (Pending(s, id) ==> Pending(t, id))
            && (id in s.readers ==> id in t.readers && t.readers[id].stream == s.readers[id].stream)
  {
    DropKeepsAnswers(s, j, env, t0);
    var k := DropForwardEffect(s, j, env);
    var f := s.forwards[j];
    if f.data.reader == id {
      LastReturnEnds(ReadOf(s, id), k, env(f.loan), t0);
    }
  }

  lemma TurnKeepsDue(s: Session, i: nat, env: nat -> Env, id: ReaderId, t0: int)
    requires Inv(s) && i < |s.queue| && Answers(s.forwards, env, t0) && AtMost(s, id, t0)
    ensures var t := Settled(ReleaseMessage(s, i, env));
            && AtMost(t, id, t0) && Answers(t.forwards, env, t0) && (HasRead(t, id) ==> HasRead(s, id))
            && (Pending(s, id) ==> Pending(t, id))
            && (id in s.readers ==> id in t.readers && t.readers[id].stream == s.readers[id].stream)
  {
    ReleaseIsDrop(s, i, env);
    if s.queue[i].data {
      DropKeepsDue(s.(queue := Remove(s.queue, i)), |DataOnly(s.queue[..i])|, env, id, t0);
    }
  }

  lemma {:induction false} DrainKeepsDue(s: Session, m: Match, env: nat -> Env, id: ReaderId, t0: int)
    requires Inv(s) && Answers(s.forwards, env, t0) && AtMost(s, id, t0)
    ensures var d := DrainAll(s, m, env).s;
            && AtMost(d, id, t0) && Answers(d.forwards, env, t0) && (HasRead(d, id) ==> HasRead(s, id))
            && (Pending(s, id) ==> Pending(d, id))
            && (id in s.readers ==> id in d.readers && d.readers[id].stream == s.readers[id].stream)
    decreases |s.queue|
  {
    var g := MatchIndex(s.forwards, m);
    if g < |s.forwards| {
      var i := Dismissal.FirstQueued(s, g);
      TurnKeepsDue(s, i, env, id, t0);
      SettledInv(s, i, env);
      TurnKeepsEnd(s, m, env);
      ReleaseKeepsLists(s, i, env);
      DrainKeepsDue(Settled(ReleaseMessage(s, i, env)), m, env, id, t0);
    }
  }

  /** Releasing the pending samples of a complete read ends it unless, and only unless, some
      forward request of its reader travels on a stream other than the reader's. */
  lemma SweepOneExactly(s: Session, id: ReaderId, env: nat -> Env, t0: int)
    requires Inv(s) && id != EVERY_READER && HasRead(s, id) && Due(ReadOf(s, id), t0) && Answers(s.forwards, env, t0)
    ensures SweepOne(s, id, env).ok
    ensures HasRead(SweepOne(s, id, env).s, id) <==> Dismissal.SomeElsewhere(s.forwards, id, s.readers[id].stream)
  {
    var stream := s.readers[id].stream;
    if ReadOf(s, id).samples == [] {
      forall i | 0 <= i < |s.forwards|
        ensures s.forwards[i].data.reader != id
      {
        MineSplit(s.forwards, i, id);
      }
    } else {
      var m := Match(Some(stream), id);
      var d := DrainAll(s, m, env).s;
      Dismissal.DismissalExact(s, m, env);
      DrainKeepsDue(s, m, env, id, t0);
      Dismissal.LeftElsewhere(s.forwards, id, stream);
      if HasRead(d, id) {
        var i := MineMember(d.forwards, id, 0);
        assert d.forwards[i].data.reader == id;
      }
    }
  }

  ghost predicate AllOpen(s: Session) { forall id :: HasRead(s, id) ==> ReadOf(s, id).open }

  lemma DropKeepsOpen(s: Session, j: nat, env: nat -> Env)
    requires PendingExact(s) && BuffersApart(s) && j < |s.forwards| && AllOpen(s)
    ensures AllOpen(Settled(DropForward(s, j, env)))
  {
    var k := DropForwardEffect(s, j, env);
    var t := Settled(DropForward(s, j, env));
    forall id | HasRead(t, id)
      ensures ReadOf(t, id).open
    {
      assert HasRead(s, id) && ReadOf(s, id).open;
    }
  }

  lemma TurnKeepsOpen(s: Session, i: nat, env: nat -> Env)
    requires Inv(s) && i < |s.queue| && AllOpen(s)
    ensures AllOpen(Settled(ReleaseMessage(s, i, env)))
  {
    ReleaseIsDrop(s, i, env);
    var s1 := s.(queue := Remove(s.queue, i));
    assert forall id :: HasRead(s1, id) ==> HasRead(s, id) && ReadOf(s1, id) == ReadOf(s, id);
    assert AllOpen(s1);
    if s.queue[i].data {
      DropKeepsOpen(s1, |DataOnly(s.queue[..i])|, env);
    }
  }

  lemma {:induction false} DrainKeepsOpen(s: Session, m: Match, env: nat -> Env)
    requires Inv(s) && AllOpen(s)
    ensures AllOpen(DrainAll(s, m, env).s)
    decreases |s.queue|
  {
    var g := MatchIndex(s.forwards, m);
    if g < |s.forwards| {
      var i := Dismissal.FirstQueued(s, g);
      TurnKeepsOpen(s, i, env);
      SettledInv(s, i, env);
      TurnKeepsEnd(s, m, env);
      ReleaseKeepsLists(s, i, env);
      DrainKeepsOpen(Settled(ReleaseMessage(s, i, env)), m, env);
    }
  }

  /** The reader's read was complete when the sweep began, and its forward requests are on its
      stream. */
  ghost predicate Sweepable(s: Session, id: ReaderId, t0: int) {
    HasRead(s, id) ==> Due(ReadOf(s, id), t0) && !Dismissal.SomeElsewhere(s.forwards, id, s.readers[id].stream)
  }

  ghost predicate Fit(s: Session, env: nat -> Env, t0: int) { Inv(s) && AllOpen(s) && Answers(s.forwards, env, t0) }

  lemma FewerForwards(s: Session, t: Session, env: nat -> Env, k: ReaderId, t0: int)
    requires forall f :: f in t.forwards ==> f in s.forwards
    ensures Answers(s.forwards, env, t0) ==> Answers(t.forwards, env, t0)
    ensures forall stream :: Dismissal.SomeElsewhere(t.forwards, k, stream) ==> Dismissal.SomeElsewhere(s.forwards, k, stream)
  {
    forall i | 0 <= i < |t.forwards|
      ensures exists j :: 0 <= j < |s.forwards| && s.forwards[j] == t.forwards[i]
    {
      assert t.forwards[i] in s.forwards;
    }
  }

  lemma SweepOneFit(s: Session, id: ReaderId, env: nat -> Env, t0: int)
    requires Fit(s, env, t0)
    ensures SweepOne(s, id, env).ok && Fit(SweepOne(s, id, env).s, env, t0)
    ensures var t := SweepOne(s, id, env).s; forall f :: f in t.forwards ==> f in s.forwards
  {
    var t := SweepOne(s, id, env).s;
    if HasRead(s, id) && ReadOf(s, id).complete {
      if ReadOf(s, id).samples != [] {
        var m := Match(Some(s.readers[id].stream), id);
        Dismissal.DismissalExact(s, m, env);
        DrainKeepsOpen(s, m, env);
        forall f | f in t.forwards
          ensures f in s.forwards
        {
          Dismissal.SurvivingMember(s.forwards, s.forwards, m, f);
        }
      } else {
        EndCancelKeepsInv(s, id);
        assert forall k :: HasRead(t, k) ==> HasRead(s, k) && ReadOf(t, k) == ReadOf(s, k);
      }
      FewerForwards(s, t, env, id, t0);
    }
  }

  /** Sweeping one reader keeps another sweepable, and revives no read. */
  lemma SweepOneKeeps(s: Session, id: ReaderId, k: ReaderId, env: nat -> Env, t0: int)
    requires Fit(s, env, t0) && Sweepable(s, k, t0)
    ensures var t := SweepOne(s, id, env).s; Sweepable(t, k, t0) && (HasRead(t, k) ==> HasRead(s, k))
  {
    var t := SweepOne(s, id, env).s;
    SweepOneFit(s, id, env, t0);
    FewerForwards(s, t, env, k, t0);
    if HasRead(s, id) {
      DrainKeepsDue(s, Match(Some(s.readers[id].stream), id), env, k, t0);
    }
  }

  /** After a sweep no read that was complete when it began is active any more, whatever other
      reads complete on the way. */
  lemma {:induction false} SweepLeavesNone(s: Session, order: seq<ReaderId>, id: ReaderId, env: nat -> Env, t0: int)
    requires Fit(s, env, t0) && Sweepable(s, id, t0) && id != EVERY_READER && (id in order || !HasRead(s, id))
    ensures SweepAll(s, order, env).ok && !HasRead(SweepAll(s, order, env).s, id)
    decreases |order|
  {
    if order != [] {
      var t := SweepOne(s, order[0], env).s;
      SweepOneFit(s, order[0], env, t0);
      SweepOneKeeps(s, order[0], id, env, t0);
      if order[0] == id && HasRead(s, id) {
        SweepOneExactly(s, id, env, t0);
      }
      SweepLeavesNone(t, order[1..], id, env, t0);
    }
  }

  /** Cancelling a read works exactly if there is none, or an open one with nothing pending; then
      there is none any more, and otherwise nothing has changed. */
  lemma CancelsExactly(s: Session, id: ReaderId)
    ensures var t := Cancelled(s, id);
            && (t.ok <==> (HasRead(s, id) ==> ReadOf(s, id).samples == [] && ReadOf(s, id).open))
            && (t.ok ==> !HasRead(t.s, id)) && (!t.ok ==> t.s == s)
            && (forall k :: k in s.readers && k != id ==> k in t.s.readers && t.s.readers[k] == s.readers[k])
  {
  }

  // ----- what a sweep leaves alone -----

  /** The reader has no read, or one that is not complete and has nothing pending. */
  predicate Unswept(s: Session, id: ReaderId) {
    id in s.readers && (HasRead(s, id) ==> !ReadOf(s, id).complete && ReadOf(s, id).samples == [])
  }

  lemma TurnSpares(s: Session, i: nat, env: nat -> Env, id: ReaderId)
    requires Inv(s) && i < |s.queue| && Unswept(s, id)
    ensures var t := Settled(ReleaseMessage(s, i, env)); id in t.readers && t.readers[id] == s.readers[id]
  {
    ReleaseIsDrop(s, i, env);
    if s.queue[i].data {
      var _ := DropForwardEffect(s.(queue := Remove(s.queue, i)), |DataOnly(s.queue[..i])|, env);
    }
  }

  /** A dismissal, whatever it is about, leaves a reader with nothing pending as it is. */
  lemma {:induction false} DrainSpares(s: Session, m: Match, env: nat -> Env, id: ReaderId)
    requires Inv(s) && Unswept(s, id)
    ensures var d := DrainAll(s, m, env).s; id in d.readers && d.readers[id] == s.readers[id]
    decreases |s.queue|
  {
    var g := MatchIndex(s.forwards, m);
    if g < |s.forwards| {
      var i := Dismissal.FirstQueued(s, g);
      TurnSpares(s, i, env, id);
      SettledInv(s, i, env);
      TurnKeepsEnd(s, m, env);
      ReleaseKeepsLists(s, i, env);
      DrainSpares(Settled(ReleaseMessage(s, i, env)), m, env, id);
    }
  }

  lemma SweepOneSpares(s: Session, k: ReaderId, env: nat -> Env, id: ReaderId)
    requires Inv(s) && Unswept(s, id)
    ensures var t := SweepOne(s, k, env).s; id in t.readers && t.readers[id] == s.readers[id]
  {
    if HasRead(s, k) {
      DrainSpares(s, Match(Some(s.readers[k].stream), k), env, id);
    }
  }

  /** A sweep takes complete reads only: a reader that has none, and nothing pending, is the same
      reader afterwards, whatever reads the sweep ends. */
  lemma {:induction false} SweepSpares(s: Session, order: seq<ReaderId>, env: nat -> Env, id: ReaderId)
    requires Inv(s) && Unswept(s, id)
    ensures var t := SweepAll(s, order, env).s; id in t.readers && t.readers[id] == s.readers[id]
    decreases |order|
  {
    if order != [] {
      SweepOneSpares(s, order[0], env, id);
      SweepOneInv(s, order[0], env);
      SweepSpares(SweepOne(s, order[0], env).s, order[1..], env, id);
    }
  }
}
