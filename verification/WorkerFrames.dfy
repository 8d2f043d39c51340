/** What a worker's run keeps for the other workers: the loan invariant, the reads that
    others wait for, and an empty list of forward requests. */
module WorkerFrames {
  import opened SessionState
  import opened Loans
  import Dismissal
  import opened Workers

  /** The read is being cancelled: some worker awaits it. */
  predicate Closed(s: Session, id: ReaderId) { HasRead(s, id) && !ReadOf(s, id).open }

  ghost predicate Sound(s: Session) { Inv(s) && EVERY_READER !in s.readers }

  /** Going from `s` to `t` took up no read that somebody awaits, and left `await`, if any,
      as a read that nobody else awaits. */
  ghost predicate Framed(s: Session, t: Session, await: Option<ReaderId>) {
    && (forall k :: Closed(s, k) ==> Closed(t, k))
    && (await.Some? ==> !Closed(s, await.value) && Closed(t, await.value))
    && (s.forwards == [] ==> t.forwards == [])
  }

  function Awaited(prog: seq<Instr>): Option<ReaderId> {
    if prog != [] && prog[0].Await? then Some(prog[0].id) else None
  }

  /** In a program a new read follows the cancellation of the old one, and the streams are
      reset right after all forward requests have been dismissed. */
  ghost predicate Careful(prog: seq<Instr>) {
    && (forall k :: 0 < k < |prog| && prog[k].NewRead? ==>
          prog[k - 1] == Cancel(prog[k].id) || prog[k - 1] == Await(prog[k].id))
    && (forall k :: 0 < k < |prog| && prog[k].ResetStreams? ==> prog[k - 1] == Dismiss(ALL))
    && (forall k :: 0 < k < |prog| ==> !prog[k].Await?)
  }

  /** The first instruction may be carried out in `s`. */
  ghost predicate Ready(s: Session, prog: seq<Instr>) {
    prog != [] ==>
      && (prog[0].NewRead? ==> !HasRead(s, prog[0].id))
      && (prog[0].ResetStreams? ==> s.forwards == [])
  }

  lemma DropFrame(s: Session, j: nat, env: nat -> Env)
    requires PendingExact(s) && BuffersApart(s) && OpenWhilePending(s) && j < |s.forwards|
    ensures var r := DropForward(s, j, env);
            Framed(s, r.s, if r.out.Completed? then Some(r.out.id) else None) && r.s.readers.Keys == s.readers.Keys
  {
    var k := DropForwardEffect(s, j, env);
    var r := DropForward(s, j, env);
    var id := s.forwards[j].data.reader;
    assert ReadOf(s, id).open;
    forall n | Closed(s, n)
      ensures Closed(r.s, n)
    {
      assert n != id;
      assert r.s.readers[n] == s.readers[n];
    }
  }

  lemma SameReaders(s: Session, queue: seq<Message>)
    ensures forall k :: HasRead(s.(queue := queue), k) == HasRead(s, k)
    ensures forall k :: HasRead(s, k) ==> ReadOf(s.(queue := queue), k) == ReadOf(s, k)
  {
  }

  lemma ReleaseFrame(s: Session, i: nat, env: nat -> Env)
    requires Sound(s) && i < |s.queue|
    ensures var r := ReleaseMessage(s, i, env);
            Sound(r.s) && Framed(s, r.s, if r.out.Completed? then Some(r.out.id) else None)
  {
    ReleaseKeepsInv(s, i, env);
    ReleaseIsDrop(s, i, env);
    if s.queue[i].data {
      var j := |DataOnly(s.queue[..i])|;
      var s1 := s.(queue := Remove(s.queue, i));
      SameReaders(s, Remove(s.queue, i));
      DropFrame(s1, j, env);
    }
  }

  lemma {:induction false} DrainFrame(s: Session, m: Match, env: nat -> Env)
    requires Sound(s)
    ensures var d := Drain(s, m, env);
            Sound(d.s) && Framed(s, d.s, if d.out.Blocked? then Some(d.out.id) else None)
    decreases |s.queue|
  {
    var g := MatchIndex(s.forwards, m);
    if g < |s.forwards| {
      var i := QueuedIndex(s.queue, s.forwards[g].stream, s.forwards[g].sn);
      if i < |s.queue| {
        ReleaseFrame(s, i, env);
        var r := ReleaseMessage(s, i, env);
        if !r.out.Completed? {
          DrainFrame(r.s, m, env);
        }
      }
    }
  }

  lemma CloseReadFrame(s: Session, id: ReaderId)
    requires Sound(s) && HasRead(s, id) && ReadOf(s, id).samples == [] && ReadOf(s, id).open
    ensures Sound(CloseRead(s, id)) && Framed(s, CloseRead(s, id), Some(id))
  {
    var t := CloseRead(s, id);
    assert forall k :: HasRead(t, k) <==> HasRead(s, k);
    assert forall k :: HasRead(t, k) ==> ReadOf(t, k).samples == ReadOf(s, k).samples;
  }

  lemma NewReadFrame(s: Session, id: ReaderId, spec: ReadSpec)
    requires Sound(s) && id in s.readers && !HasRead(s, id)
    ensures var a := s.readers[id];
            var t := s.(readers := s.readers[id := a.(read := Some(FreshRead(a, spec)), forward := true)]);
            Sound(t) && Framed(s, t, None)
  {
    var a := s.readers[id];
    var t := s.(readers := s.readers[id := a.(read := Some(FreshRead(a, spec)), forward := true)]);
    if Mine(s.forwards, id) != [] {
      var i := MineMember(s.forwards, id, 0);
      assert false;
    }
    assert forall k :: k != id ==> (HasRead(t, k) <==> HasRead(s, k));
    assert forall k :: k != id && HasRead(t, k) ==> ReadOf(t, k) == ReadOf(s, k);
  }

  lemma DetachFrame(s: Session, id: ReaderId)
    requires Sound(s) && !HasRead(s, id)
    ensures var t := s.(readers := s.readers - {id}); Sound(t) && Framed(s, t, None)
  {
    var t := s.(readers := s.readers - {id});
    assert forall k :: HasRead(t, k) <==> HasRead(s, k);
    assert forall k :: HasRead(t, k) ==> ReadOf(t, k) == ReadOf(s, k);
  }

  lemma LifeFrame(s: Session, life: Life)
    requires Sound(s)
    ensures Sound(s.(life := life)) && Framed(s, s.(life := life), None)
  {
    var t := s.(life := life);
    assert forall k :: HasRead(t, k) == HasRead(s, k);
    assert forall k :: HasRead(t, k) ==> ReadOf(t, k) == ReadOf(s, k);
  }

  lemma EmptyQueueFrame(s: Session)
    requires Sound(s) && s.forwards == []
    ensures Sound(s.(queue := [])) && Framed(s, s.(queue := []), None)
  {
    SameReaders(s, []);
  }

  /** One instruction keeps the loan invariant and the reads that others await. */
  lemma PerformFrame(s: Session, i: Instr, env: nat -> Env)
    requires Sound(s) && !Blocking(i)
    requires i.NewRead? ==> !HasRead(s, i.id)
    requires i.ResetStreams? ==> s.forwards == []
    ensures match Perform(s, i, env)
            case Next(t) => Sound(t) && Framed(s, t, None)
            case Wait(t, id, _) => Sound(t) && Framed(s, t, Some(id))
            case GiveUp(_) => true
  {
    match i {
      case Dismiss(m) =>
        DrainFrame(s, m, env);
      case Cancel(id) =>
        if HasRead(s, id) && ReadOf(s, id).samples == [] && ReadOf(s, id).open {
          CloseReadFrame(s, id);
        }
      case Detach(id) =>
        if !HasRead(s, id) {
          DetachFrame(s, id);
        } else if ReadOf(s, id).samples == [] && ReadOf(s, id).open {
          CloseReadFrame(s, id);
        }
      case NewRead(id, spec) =>
        if id in s.readers {
          NewReadFrame(s, id, spec);
        }
      case ResetStreams =>
        EmptyQueueFrame(s);
      case EndReset =>
        LifeFrame(s, s.life.(resetting := false));
      case Dispose =>
        LifeFrame(s, s.life.(deleted := true));
      case TryClose =>
        LifeFrame(s, s.life.(deleted := true));
      case FinishCleanup =>
        LifeFrame(s, s.life.(cleaned := true));
        LifeFrame(s, s.life.(present := false, closed := s.life.closed + 1));
    }
  }

  /** An instruction that lets the worker go on makes the next one possible. */
  lemma PerformReady(s: Session, prog: seq<Instr>, env: nat -> Env)
    requires Sound(s) && Careful(prog) && prog != [] && !Blocking(prog[0])
    ensures Perform(s, prog[0], env).Next? ==> Ready(Perform(s, prog[0], env).s, prog[1..])
  {
    if prog[0].Dismiss? {
      Dismissed(s, prog[0].m, env);
    }
  }

  /** Whatever a careful worker's program, its run keeps the loan invariant and leaves the
      reads that others await alone. */
  lemma {:induction false} RunFrame(s: Session, prog: seq<Instr>, env: nat -> Env)
    requires Sound(s) && Careful(prog) && Ready(s, prog)
    requires prog != [] ==> !prog[0].Await?
    ensures var p := Run(s, prog, env);
            Sound(p.s) && Framed(s, p.s, Awaited(p.prog)) && Careful(p.prog)
    decreases |prog|
  {
    if prog != [] && !Blocking(prog[0]) {
      PerformFrame(s, prog[0], env);
      PerformReady(s, prog, env);
      var a := Perform(s, prog[0], env);
      if a.Next? {
        RunFrame(a.s, prog[1..], env);
      } else if a.Wait? {
        WaitCareful(s, prog, env);
      }
    }
  }

  lemma WaitCareful(s: Session, prog: seq<Instr>, env: nat -> Env)
    requires Careful(prog) && prog != [] && !Blocking(prog[0]) && Perform(s, prog[0], env).Wait?
    ensures Careful(Run(s, prog, env).prog)
  {
    var p := Run(s, prog, env).prog;
    var a := Perform(s, prog[0], env);
    forall k | 0 < k < |p| && p[k].NewRead?
      ensures p[k - 1] == Cancel(p[k].id) || p[k - 1] == Await(p[k].id)
    {
      assert p[k] == prog[if a.again then k - 1 else k];
    }
    forall k | 0 < k < |p| && p[k].ResetStreams?
      ensures p[k - 1] == Dismiss(ALL)
    {
      assert p[k] == prog[if a.again then k - 1 else k];
    }
  }

  lemma Dismissed(s: Session, m: Match, env: nat -> Env)
    requires Sound(s)
    ensures !Drain(s, m, env).out.Stuck?
    ensures m == ALL && Drain(s, m, env).out.Done? ==> Drain(s, m, env).s.forwards == []
  {
    Dismissal.DrainSurvivors(s, m, env);
    var d := Drain(s, m, env);
    if m == ALL && d.out.Done? && d.s.forwards != [] {
      assert Matches(d.s.forwards[0], m);
    }
  }
}
