/** What the dismissal loop comes to: it restarts from the head of the list after every
    message it gives up, yet it ends with exactly the forward requests that no matching one
    outranks on its own stream. */
module Dismissal {
  import opened SessionState
  import opened Loans

  /** Some request to be dismissed travels on the same stream with this number or a later one. */
  ghost predicate Outranked(f: Forward, fs: seq<Forward>, m: Match) {
    exists k :: 0 <= k < |fs| && Matches(fs[k], m) && fs[k].stream == f.stream && f.sn <= fs[k].sn
  }

  ghost function Surviving(fs: seq<Forward>, all: seq<Forward>, m: Match): (r: seq<Forward>)
  {
    if fs == [] then []
    else (if Outranked(fs[0], all, m) then [] else [fs[0]]) + Surviving(fs[1..], all, m)
  }

  lemma {:induction false} SurvivingConcat(a: seq<Forward>, b: seq<Forward>, all: seq<Forward>, m: Match)
    ensures Surviving(a + b, all, m) == Surviving(a, all, m) + Surviving(b, all, m)
  {
    if a == [] {
      assert a + b == b;
    } else {
      assert (a + b)[1..] == a[1..] + b;
      SurvivingConcat(a[1..], b, all, m);
    }
  }

  lemma {:induction false} SurvivingSame(fs: seq<Forward>, all: seq<Forward>, all': seq<Forward>, m: Match)
    requires forall k :: 0 <= k < |fs| ==> Outranked(fs[k], all, m) == Outranked(fs[k], all', m)
    ensures Surviving(fs, all, m) == Surviving(fs, all', m)
  {
    if fs != [] {
      SurvivingSame(fs[1..], all, all', m);
    }
  }

  lemma {:induction false} SurvivingMember(fs: seq<Forward>, all: seq<Forward>, m: Match, f: Forward)
    ensures f in Surviving(fs, all, m) <==> f in fs && !Outranked(f, all, m)
  {
    if fs != [] {
      SurvivingMember(fs[1..], all, m, f);
    }
  }

  lemma {:induction false} NoneOutranked(fs: seq<Forward>, all: seq<Forward>, m: Match)
    requires MatchIndex(all, m) == |all|
    ensures Surviving(fs, all, m) == fs
  {
    if fs != [] {
      NoneOutranked(fs[1..], all, m);
    }
  }

  /** No other request on the stream of `fs[j]` has its number or an earlier one. */
  ghost predicate GoesLast(fs: seq<Forward>, j: nat)
    requires j < |fs|
  {
    forall k :: 0 <= k < |fs| && k != j && fs[k].stream == fs[j].stream ==> fs[k].sn > fs[j].sn
  }

  ghost predicate MayGo(fs: seq<Forward>, j: nat, g: nat, m: Match)
    requires j < |fs| && g < |fs|
  {
    Matches(fs[g], m) && fs[j].stream == fs[g].stream && fs[j].sn <= fs[g].sn && (g == j ==> GoesLast(fs, j))
  }

  lemma SurvivingDrop(fs: seq<Forward>, j: nat, all: seq<Forward>, m: Match)
    requires j < |fs| && Outranked(fs[j], all, m)
    ensures Surviving(Remove(fs, j), all, m) == Surviving(fs, all, m)
  {
    SurvivingConcat(fs[..j], fs[j + 1..], all, m);
    SplitAt(fs, j);
    SurvivingConcat(fs[..j], [fs[j]] + fs[j + 1..], all, m);
    SurvivingConcat([fs[j]], fs[j + 1..], all, m);
  }

  /** Taking away a request that matching request `g` outranks leaves the survivors as they
      were, provided that `g` itself goes last of those it outranks. */
  lemma SurvivorsStep(fs: seq<Forward>, j: nat, g: nat, m: Match)
    requires j < |fs| && g < |fs| && MayGo(fs, j, g, m)
    ensures Surviving(Remove(fs, j), Remove(fs, j), m) == Surviving(fs, fs, m)
  {
    var fs' := Remove(fs, j);
    forall k | 0 <= k < |fs'|
      ensures Outranked(fs'[k], fs', m) == Outranked(fs'[k], fs, m)
    {
      OutrankedAfter(fs, j, g, m, k);
    }
    SurvivingSame(fs', fs', fs, m);
    SurvivingDrop(fs, j, fs, m);
  }

  lemma OutrankedAfter(fs: seq<Forward>, j: nat, g: nat, m: Match, k: nat)
    requires j < |fs| && g < |fs| && MayGo(fs, j, g, m)
    requires k < |Remove(fs, j)|
    ensures Outranked(Remove(fs, j)[k], Remove(fs, j), m) == Outranked(Remove(fs, j)[k], fs, m)
  {
    var fs' := Remove(fs, j);
    var f := fs'[k];
    if Outranked(f, fs', m) {
      var p :| 0 <= p < |fs'| && Matches(fs'[p], m) && fs'[p].stream == f.stream && f.sn <= fs'[p].sn;
      assert fs[if p < j then p else p + 1] == fs'[p];
    }
    if Outranked(f, fs, m) {
      var p :| 0 <= p < |fs| && Matches(fs[p], m) && fs[p].stream == f.stream && f.sn <= fs[p].sn;
      assert fs[if k < j then k else k + 1] == f;
      var q := if p == j then g else p;
      assert fs'[if q < j then q else q - 1] == fs[q];
    }
  }

  /** The first queued message up to a request's own is there, and what it releases is
      outranked by that request. */
  lemma FirstQueued(s: Session, g: nat) returns (i: nat)
    requires Inv(s) && g < |s.forwards|
    ensures i == QueuedIndex(s.queue, s.forwards[g].stream, s.forwards[g].sn) && i < |s.queue|
    ensures s.queue[i].data ==>
              var j := |DataOnly(s.queue[..i])|;
              && j < |s.forwards| && SameMessage(s.forwards[j], s.queue[i])
              && (g == j ==> GoesLast(s.forwards, j))
  {
    var fs := s.forwards;
    i := QueuedIndex(s.queue, fs[g].stream, fs[g].sn);
    var q := DataMember(s.queue, g);
    assert SameMessage(fs[g], DataOnly(s.queue)[g]);
    if s.queue[i].data {
      DataRemove(s.queue, i);
      var j := |DataOnly(s.queue[..i])|;
      assert SameMessage(fs[j], DataOnly(s.queue)[j]);
      if g == j {
        forall k | 0 <= k < |fs| && k != j && fs[k].stream == fs[j].stream
          ensures fs[k].sn > fs[j].sn
        {
          KeysDistinct(s);
          var p := DataMember(s.queue, k);
          assert SameMessage(fs[k], DataOnly(s.queue)[k]);
        }
      }
    }
  }

  lemma ReleaseSurvivors(s: Session, g: nat, m: Match, env: nat -> Env) returns (i: nat)
    requires Inv(s) && g < |s.forwards| && Matches(s.forwards[g], m)
    ensures i == QueuedIndex(s.queue, s.forwards[g].stream, s.forwards[g].sn) && i < |s.queue|
    ensures var t := ReleaseMessage(s, i, env).s; Surviving(t.forwards, t.forwards, m) == Surviving(s.forwards, s.forwards, m)
  {
    i := FirstQueued(s, g);
    ReleaseIsDrop(s, i, env);
    if s.queue[i].data {
      var j := |DataOnly(s.queue[..i])|;
      var _ := DropForwardEffect(s.(queue := Remove(s.queue, i)), j, env);
      SurvivorsStep(s.forwards, j, g, m);
    }
  }

  lemma {:induction false} DrainSurvivors(s: Session, m: Match, env: nat -> Env)
    requires Inv(s)
    ensures !Drain(s, m, env).out.Stuck?
    ensures var d := Drain(s, m, env); d.out.Done? ==> d.s.forwards == Surviving(s.forwards, s.forwards, m)
    ensures var d := Drain(s, m, env).s; Surviving(d.forwards, d.forwards, m) == Surviving(s.forwards, s.forwards, m)
    decreases |s.queue|
  {
    var g := MatchIndex(s.forwards, m);
    if g == |s.forwards| {
      NoneOutranked(s.forwards, s.forwards, m);
    } else {
      var i := ReleaseSurvivors(s, g, m, env);
      ReleaseKeepsInv(s, i, env);
      var r := ReleaseMessage(s, i, env);
      if !r.out.Completed? {
        DrainSurvivors(r.s, m, env);
      }
    }
  }

  /** A dismissal never fails and leaves exactly the requests that no matching one outranks,
      whatever the clock and the resource table answer on the way. */
  lemma {:induction false} DismissalExact(s: Session, m: Match, env: nat -> Env)
    requires Inv(s)
    ensures var d := DrainAll(s, m, env);
            d.out.Done? && Inv(d.s) && d.s.forwards == Surviving(s.forwards, s.forwards, m)
    decreases |s.queue|
  {
    DrainKeepsInv(s, m, env);
    DrainSurvivors(s, m, env);
    var d := Drain(s, m, env);
    if d.out.Blocked? {
      EndCancelKeepsInv(d.s, d.out.id);
      DismissalExact(EndCancel(d.s, d.out.id), m, env);
    }
  }

  lemma {:induction false} DrainKeepsCounts(s: Session, m: Match, env: nat -> Env)
    ensures var d := Drain(s, m, env).s; d.lent == s.lent && d.life == s.life && d.readers.Keys == s.readers.Keys
    ensures forall id :: id in s.readers ==> SameSetup(s.readers[id], Drain(s, m, env).s.readers[id])
    decreases |s.queue|
  {
    var g := MatchIndex(s.forwards, m);
    if g < |s.forwards| {
      var i := QueuedIndex(s.queue, s.forwards[g].stream, s.forwards[g].sn);
      if i < |s.queue| {
        var r := ReleaseMessage(s, i, env);
        if !r.out.Completed? {
          DrainKeepsCounts(r.s, m, env);
        }
      }
    }
  }

  /** What a reader's set-up consists of, apart from its read and its progress. */
  predicate SameSetup(a: Reader, b: Reader) { a.stream == b.stream && a.forward == b.forward }

  /** Dismissing for a reader (or for all) leaves nothing pending in its read, and the loan
      of every request that went was given back. */
  lemma {:induction false} DismissalReturns(s: Session, m: Match, env: nat -> Env)
    requires Inv(s)
    ensures var d := DrainAll(s, m, env).s;
            forall f :: f in s.forwards ==> (f in d.forwards <==> !Outranked(f, s.forwards, m))
                                            && (f !in d.forwards ==> f.loan in d.returned)
    ensures m.stream.None? ==>
              var d := DrainAll(s, m, env).s;
              forall id :: (m.reader == EVERY_READER || m.reader == id) && HasRead(d, id) ==> ReadOf(d, id).samples == []
  {
    DismissalExact(s, m, env);
    DrainAllKeepsLent(s, m, env);
    var d := DrainAll(s, m, env).s;
    forall f | f in s.forwards
      ensures (f in d.forwards <==> !Outranked(f, s.forwards, m)) && (f !in d.forwards ==> f.loan in d.returned)
    {
      SurvivingMember(s.forwards, s.forwards, m, f);
      assert Outstanding(s.forwards, f.loan);
      if f !in d.forwards && Outstanding(d.forwards, f.loan) {
        var i :| 0 <= i < |d.forwards| && d.forwards[i].loan == f.loan;
        SurvivingMember(s.forwards, s.forwards, m, d.forwards[i]);
        assert false;
      }
    }
    if m.stream.None? {
      forall id | (m.reader == EVERY_READER || m.reader == id) && HasRead(d, id)
        ensures ReadOf(d, id).samples == []
      {
        if Mine(d.forwards, id) != [] {
          var i := MineMember(d.forwards, id, 0);
          SurvivingMember(s.forwards, s.forwards, m, d.forwards[i]);
          assert Matches(d.forwards[i], m);
          assert false;
        }
      }
    }
  }

  lemma {:induction false} DrainAllKeepsLent(s: Session, m: Match, env: nat -> Env)
    ensures DrainAll(s, m, env).s.lent == s.lent
    decreases |s.queue|
  {
    DrainKeepsCounts(s, m, env);
    var d := Drain(s, m, env);
    if d.out.Blocked? {
      DrainAllKeepsLent(EndCancel(d.s, d.out.id), m, env);
    }
  }

  // ----- requests of a reader on other streams -----

  predicate OnOtherStream(f: Forward, id: ReaderId, stream: StreamId) { f.data.reader == id && f.stream != stream }

  /** What a dismissal for one reader on one stream leaves of the reader's requests: those on
      other streams. */
  lemma OthersSurvive(fs: seq<Forward>, id: ReaderId, stream: StreamId, f: Forward)
    requires id != EVERY_READER && f in fs && f.data.reader == id
    ensures f in Surviving(fs, fs, Match(Some(stream), id)) <==> f.stream != stream
  {
    var m := Match(Some(stream), id);
    SurvivingMember(fs, fs, m, f);
    if f.stream == stream {
      var k :| 0 <= k < |fs| && fs[k] == f;
      assert Matches(fs[k], m);
      assert Outranked(f, fs, m);
    }
  }

  ghost predicate SomeOf(fs: seq<Forward>, id: ReaderId) {
    exists i :: 0 <= i < |fs| && fs[i].data.reader == id
  }

  ghost predicate SomeElsewhere(fs: seq<Forward>, id: ReaderId, stream: StreamId) {
    exists i :: 0 <= i < |fs| && OnOtherStream(fs[i], id, stream)
  }

  lemma LeftElsewhere(fs: seq<Forward>, id: ReaderId, stream: StreamId)
    requires id != EVERY_READER
    ensures SomeOf(Surviving(fs, fs, Match(Some(stream), id)), id) <==> SomeElsewhere(fs, id, stream)
  {
    var m := Match(Some(stream), id);
    var left := Surviving(fs, fs, m);
    if i :| 0 <= i < |fs| && OnOtherStream(fs[i], id, stream) {
      OthersSurvive(fs, id, stream, fs[i]);
      var k :| 0 <= k < |left| && left[k] == fs[i];
    }
    if i :| 0 <= i < |left| && left[i].data.reader == id {
      SurvivingMember(fs, fs, m, left[i]);
      OthersSurvive(fs, id, stream, left[i]);
      var k :| 0 <= k < |fs| && fs[k] == left[i];
      assert OnOtherStream(fs[k], id, stream);
    }
  }
}
