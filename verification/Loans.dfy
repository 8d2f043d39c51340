/** The loan invariant: forward requests, pending samples, queued DATA messages and
    outstanding loans are the same things seen from four sides. */
module Loans {
  import opened SessionState

  /** The loans that the forward requests hold for one reader, in order. */
  function Mine(fs: seq<Forward>, id: ReaderId): (r: seq<Received>)
    ensures forall k :: 0 <= k < |r| ==> r[k].reader == id
  {
    if fs == [] then []
    else (if fs[0].data.reader == id then [fs[0].data] else []) + Mine(fs[1..], id)
  }

  function DataOnly(queue: seq<Message>): (r: seq<Message>)
    ensures forall k :: 0 <= k < |r| ==> r[k].data
  {
    if queue == [] then []
    else (if queue[0].data then [queue[0]] else []) + DataOnly(queue[1..])
  }

  ghost predicate Ascending(queue: seq<Message>) {
    forall i, j :: 0 <= i < j < |queue| && queue[i].stream == queue[j].stream ==> queue[i].sn < queue[j].sn
  }

  /** The samples pending in a reader's read are exactly those its forward requests hold,
      in the same order; a forward request has an active read behind it. */
  ghost predicate PendingExact(s: Session) {
    && (forall id :: HasRead(s, id) ==> ReadOf(s, id).samples == Mine(s.forwards, id))
    && (forall i :: 0 <= i < |s.forwards| ==> HasRead(s, s.forwards[i].data.reader) && Reliable(s.forwards[i].stream))
  }

  predicate SameMessage(f: Forward, m: Message) { m == Message(f.stream, f.sn, true) }

  ghost predicate MatchesQueue(fs: seq<Forward>, queue: seq<Message>) {
    && Ascending(queue)
    && |DataOnly(queue)| == |fs|
    && (forall i :: 0 <= i < |fs| ==> SameMessage(fs[i], DataOnly(queue)[i]))
  }

  /** The DATA messages still queued are exactly those of the forward requests, in order. */
  ghost predicate QueueExact(s: Session) { MatchesQueue(s.forwards, s.queue) }

  ghost predicate Apart(fs: seq<Forward>, pool: seq<nat>, made: nat) {
    && (forall i, j :: 0 <= i < j < |fs| ==> fs[i].data.buf != fs[j].data.buf)
    && (forall i, j :: 0 <= i < j < |pool| ==> pool[i] != pool[j])
    && (forall i :: 0 <= i < |fs| ==> fs[i].data.buf < made && fs[i].data.buf !in pool)
    && (forall i :: 0 <= i < |pool| ==> pool[i] < made)
  }

  /** No buffer is on loan twice, in the reuse pool twice, or in both places. */
  ghost predicate BuffersApart(s: Session) { Apart(s.forwards, s.pool, s.made) }

  ghost predicate Outstanding(fs: seq<Forward>, loan: nat) {
    exists i :: 0 <= i < |fs| && fs[i].loan == loan
  }

  /** Every loan ever made is either outstanding or was given back, once. */
  ghost predicate AllAccounted(fs: seq<Forward>, returned: seq<nat>, lent: nat) {
    && (forall i, j :: 0 <= i < j < |fs| ==> fs[i].loan < fs[j].loan)
    && (forall i, j :: 0 <= i < j < |returned| ==> returned[i] != returned[j])
    && (forall l: nat :: l < lent <==> l in returned || Outstanding(fs, l))
    && (forall i :: 0 <= i < |fs| ==> fs[i].loan !in returned)
  }

  ghost predicate LoansExact(s: Session) { AllAccounted(s.forwards, s.returned, s.lent) }

  /** A read that was taken off its DDS reader has nothing pending. */
  ghost predicate OpenWhilePending(s: Session) {
    forall id :: HasRead(s, id) && !ReadOf(s, id).open ==> ReadOf(s, id).samples == []
  }

  ghost predicate Inv(s: Session) {
    PendingExact(s) && QueueExact(s) && BuffersApart(s) && LoansExact(s) && OpenWhilePending(s)
  }

  // ----- filters over concatenation and removal -----

  lemma {:induction false} MineConcat(a: seq<Forward>, b: seq<Forward>, id: ReaderId)
    ensures Mine(a + b, id) == Mine(a, id) + Mine(b, id)
  {
    if a == [] {
      assert a + b == b;
    } else {
      assert (a + b)[1..] == a[1..] + b;
      MineConcat(a[1..], b, id);
    }
  }

  lemma {:induction false} DataConcat(a: seq<Message>, b: seq<Message>)
    ensures DataOnly(a + b) == DataOnly(a) + DataOnly(b)
  {
    if a == [] {
      assert a + b == b;
    } else {
      assert (a + b)[1..] == a[1..] + b;
      DataConcat(a[1..], b);
    }
  }

  lemma SplitAt<T>(xs: seq<T>, i: nat)
    requires i < |xs|
    ensures xs == xs[..i] + ([xs[i]] + xs[i + 1..])
  {
  }

  lemma MineSplit(fs: seq<Forward>, j: nat, id: ReaderId)
    requires j < |fs|
    ensures Mine(fs, id) == Mine(fs[..j], id) + ((if fs[j].data.reader == id then [fs[j].data] else []) + Mine(fs[j + 1..], id))
  {
    SplitAt(fs, j);
    MineConcat(fs[..j], [fs[j]] + fs[j + 1..], id);
    MineConcat([fs[j]], fs[j + 1..], id);
  }

  /** Dropping one forward request drops its sample from its reader and none elsewhere. */
  lemma MineRemove(fs: seq<Forward>, j: nat, id: ReaderId)
    requires j < |fs|
    ensures fs[j].data.reader != id ==> Mine(Remove(fs, j), id) == Mine(fs, id)
    ensures fs[j].data.reader == id ==>
              var k := |Mine(fs[..j], id)|;
              && k < |Mine(fs, id)| && Mine(fs, id)[k] == fs[j].data
              && Mine(Remove(fs, j), id) == Remove(Mine(fs, id), k)
  {
    MineSplit(fs, j, id);
    MineConcat(fs[..j], fs[j + 1..], id);
  }

  lemma DataRemove(queue: seq<Message>, i: nat)
    requires i < |queue|
    ensures !queue[i].data ==> DataOnly(Remove(queue, i)) == DataOnly(queue)
    ensures queue[i].data ==>
              var k := |DataOnly(queue[..i])|;
              && k < |DataOnly(queue)| && DataOnly(queue)[k] == queue[i]
              && DataOnly(Remove(queue, i)) == Remove(DataOnly(queue), k)
  {
    SplitAt(queue, i);
    DataConcat(queue[..i], [queue[i]] + queue[i + 1..]);
    DataConcat([queue[i]], queue[i + 1..]);
    DataConcat(queue[..i], queue[i + 1..]);
  }

  lemma {:induction false} MineMember(fs: seq<Forward>, id: ReaderId, k: nat) returns (i: nat)
    requires k < |Mine(fs, id)|
    ensures i < |fs| && fs[i].data == Mine(fs, id)[k]
  {
    if fs[0].data.reader == id && k == 0 {
      i := 0;
    } else {
      i := MineMember(fs[1..], id, if fs[0].data.reader == id then k - 1 else k);
      i := i + 1;
    }
  }

  lemma {:induction false} DataMember(queue: seq<Message>, k: nat) returns (i: nat)
    requires k < |DataOnly(queue)|
    ensures i < |queue| && queue[i] == DataOnly(queue)[k]
  {
    if queue[0].data && k == 0 {
      i := 0;
    } else {
      i := DataMember(queue[1..], if queue[0].data then k - 1 else k);
      i := i + 1;
    }
  }

  lemma {:induction false} DataAscending(queue: seq<Message>)
    requires Ascending(queue)
    ensures Ascending(DataOnly(queue))
  {
    if queue != [] {
      DataAscending(queue[1..]);
      var rest := DataOnly(queue[1..]);
      forall k | 0 <= k < |rest| && rest[k].stream == queue[0].stream
        ensures queue[0].sn < rest[k].sn
      {
        var i := DataMember(queue[1..], k);
        assert queue[i + 1] == rest[k];
      }
    }
  }

  lemma AscendingRemove(queue: seq<Message>, i: nat)
    requires i < |queue| && Ascending(queue)
    ensures Ascending(Remove(queue, i))
  {
  }

  /** Two forward requests never share a message. */
  lemma KeysDistinct(s: Session)
    requires QueueExact(s)
    ensures forall i, j :: 0 <= i < j < |s.forwards| && s.forwards[i].stream == s.forwards[j].stream ==>
              s.forwards[i].sn < s.forwards[j].sn
  {
    DataAscending(s.queue);
    forall i, j | 0 <= i < j < |s.forwards| && s.forwards[i].stream == s.forwards[j].stream
      ensures s.forwards[i].sn < s.forwards[j].sn
    {
      assert SameMessage(s.forwards[i], DataOnly(s.queue)[i]);
      assert SameMessage(s.forwards[j], DataOnly(s.queue)[j]);
    }
  }

  // ----- a message is released -----

  /** Which forward request a queued message belongs to: for a DATA message the one at the
      message's own rank, for any other message none. */
  lemma ForwardOfMessage(s: Session, i: nat)
    requires QueueExact(s) && i < |s.queue|
    ensures var m := s.queue[i];
            var j := ForwardIndex(s.forwards, m.stream, m.sn);
            && (m.data ==> j < |s.forwards| && j == |DataOnly(s.queue[..i])|)
            && (!m.data ==> j == |s.forwards|)
  {
    var m := s.queue[i];
    var j := ForwardIndex(s.forwards, m.stream, m.sn);
    KeysDistinct(s);
    DataRemove(s.queue, i);
    if m.data {
      var k := |DataOnly(s.queue[..i])|;
      assert SameMessage(s.forwards[k], DataOnly(s.queue)[k]);
      assert Carries(s.forwards[k], m.stream, m.sn);
    } else if j < |s.forwards| {
      assert SameMessage(s.forwards[j], DataOnly(s.queue)[j]);
      var q := DataMember(s.queue, j);
      assert false;
    }
  }

  lemma SampleIndexIs(xs: seq<Received>, buf: nat, k: nat)
    requires k < |xs| && xs[k].buf == buf
    requires forall i :: 0 <= i < |xs| && i != k ==> xs[i].buf != buf
    ensures SampleIndex(xs, buf) == k
  {
  }

  /** Under the invariant the sample of forward request `j` is found in its read, at the
      position its rank among the reader's forward requests says. */
  lemma SampleOfForward(s: Session, j: nat)
    requires PendingExact(s) && BuffersApart(s) && j < |s.forwards|
    ensures var d := s.forwards[j].data;
            && HasRead(s, d.reader)
            && var xs := ReadOf(s, d.reader).samples;
               var k := SampleIndex(xs, d.buf);
               k < |xs| && xs[k] == d && Remove(xs, k) == Mine(Remove(s.forwards, j), d.reader)
  {
    var d := s.forwards[j].data;
    var xs := ReadOf(s, d.reader).samples;
    MineRemove(s.forwards, j, d.reader);
    MineSplit(s.forwards, j, d.reader);
    var k := |Mine(s.forwards[..j], d.reader)|;
    forall i | 0 <= i < |xs| && i != k
      ensures xs[i].buf != d.buf
    {
      if i < k {
        var p := MineMember(s.forwards[..j], d.reader, i);
        assert s.forwards[p].data == xs[i];
      } else {
        var p := MineMember(s.forwards[j + 1..], d.reader, i - k - 1);
        assert s.forwards[j + 1 + p].data == xs[i];
      }
    }
    SampleIndexIs(xs, d.buf, k);
  }

  /** Forward request `j` leaves the list and its loan is given back. */
  function DropForward(s: Session, j: nat, env: nat -> Env): Outcome
    requires j < |s.forwards|
  {
    var f := s.forwards[j];
    ReturnLoan(s.(forwards := Remove(s.forwards, j)), f.data, f.loan, env(f.loan))
  }

  lemma ReleaseIsDrop(s: Session, i: nat, env: nat -> Env)
    requires QueueExact(s) && i < |s.queue|
    ensures var s1 := s.(queue := Remove(s.queue, i));
            if s.queue[i].data then
              var j := |DataOnly(s.queue[..i])|;
              && j < |s.forwards| && SameMessage(s.forwards[j], s.queue[i])
              && ReleaseMessage(s, i, env) == DropForward(s1, j, env)
            else ReleaseMessage(s, i, env) == Outcome(s1, Kept)
  {
    ForwardOfMessage(s, i);
    DataRemove(s.queue, i);
    if s.queue[i].data {
      var j := |DataOnly(s.queue[..i])|;
      assert SameMessage(s.forwards[j], DataOnly(s.queue)[j]);
    }
  }

  /** What dropping forward request `j` does: its sample, and no other, leaves the pending
      list of its reader, and its buffer goes to the reuse pool. */
  lemma DropForwardEffect(s: Session, j: nat, env: nat -> Env) returns (k: nat)
    requires PendingExact(s) && BuffersApart(s) && j < |s.forwards|
    ensures HasRead(s, s.forwards[j].data.reader) && k < |ReadOf(s, s.forwards[j].data.reader).samples|
    ensures DroppedAt(s, j, k, env, DropForward(s, j, env))
  {
    SampleOfForward(s, j);
    k := SampleIndex(ReadOf(s, s.forwards[j].data.reader).samples, s.forwards[j].data.buf);
  }

  ghost predicate DroppedAt(s: Session, j: nat, k: nat, env: nat -> Env, t: Outcome)
    requires j < |s.forwards| && HasRead(s, s.forwards[j].data.reader)
    requires k < |ReadOf(s, s.forwards[j].data.reader).samples|
  {
    var f := s.forwards[j];
    var id := f.data.reader;
    var g := GiveBack(ReadOf(s, id), k, env(f.loan));
    && g.r.samples == Mine(Remove(s.forwards, j), id)
    && t.s == s.(forwards := Remove(s.forwards, j), pool := s.pool + [f.data.buf], returned := s.returned + [f.loan],
                 readers := s.readers[id := s.readers[id].(read := Some(g.r), lastReturned := Max(s.readers[id].lastReturned, f.data.sn))])
    && (t.out.Completed? <==> g.v.Finish?) && (t.out.Completed? ==> t.out.id == id)
  }

  lemma DropKeepsPending(s: Session, j: nat, env: nat -> Env)
    requires PendingExact(s) && OpenWhilePending(s) && BuffersApart(s) && j < |s.forwards|
    ensures PendingExact(DropForward(s, j, env).s) && OpenWhilePending(DropForward(s, j, env).s)
  {
    var k := DropForwardEffect(s, j, env);
    var t := DropForward(s, j, env).s;
    forall id | HasRead(t, id)
      ensures ReadOf(t, id).samples == Mine(t.forwards, id)
    {
      MineRemove(s.forwards, j, id);
    }
    forall id | HasRead(t, id) && !ReadOf(t, id).open
      ensures ReadOf(t, id).samples == []
    {
      if id == s.forwards[j].data.reader {
        assert ReadOf(s, id).open;
      } else {
        assert !ReadOf(s, id).open;
      }
    }
    forall i | 0 <= i < |t.forwards|
      ensures HasRead(t, t.forwards[i].data.reader) && Reliable(t.forwards[i].stream)
    {
      assert t.forwards[i] == s.forwards[if i < j then i else i + 1];
    }
  }

  lemma DropKeepsBuffers(s: Session, j: nat, env: nat -> Env)
    requires PendingExact(s) && BuffersApart(s) && j < |s.forwards|
    ensures BuffersApart(DropForward(s, j, env).s)
  {
    var k := DropForwardEffect(s, j, env);
  }

  lemma OutstandingRemove(fs: seq<Forward>, j: nat, l: nat)
    requires j < |fs|
    ensures Outstanding(fs, l) <==> l == fs[j].loan || Outstanding(Remove(fs, j), l)
  {
    var fs' := Remove(fs, j);
    if i :| 0 <= i < |fs| && fs[i].loan == l {
      assert i == j || fs'[if i < j then i else i - 1].loan == l;
    }
    if i :| 0 <= i < |fs'| && fs'[i].loan == l {
      assert fs[if i < j then i else i + 1].loan == l;
    }
  }

  lemma AccountReturn(fs: seq<Forward>, returned: seq<nat>, lent: nat, j: nat)
    requires AllAccounted(fs, returned, lent) && j < |fs|
    ensures AllAccounted(Remove(fs, j), returned + [fs[j].loan], lent)
  {
    forall l: nat
      ensures l < lent <==> l in returned + [fs[j].loan] || Outstanding(Remove(fs, j), l)
    {
      OutstandingRemove(fs, j, l);
    }
  }

  lemma QueueRemove(fs: seq<Forward>, queue: seq<Message>, i: nat)
    requires MatchesQueue(fs, queue) && i < |queue|
    ensures !queue[i].data ==> MatchesQueue(fs, Remove(queue, i))
    ensures queue[i].data ==>
              var j := |DataOnly(queue[..i])|; j < |fs| && MatchesQueue(Remove(fs, j), Remove(queue, i))
  {
    AscendingRemove(queue, i);
    DataRemove(queue, i);
    if queue[i].data {
      var j := |DataOnly(queue[..i])|;
      var fs', rest := Remove(fs, j), DataOnly(Remove(queue, i));
      forall k | 0 <= k < |fs'|
        ensures SameMessage(fs'[k], rest[k])
      {
        var k' := if k < j then k else k + 1;
        assert SameMessage(fs[k'], DataOnly(queue)[k']);
      }
    }
  }

  lemma DropKeepsInv(s: Session, i: nat, env: nat -> Env)
    requires Inv(s) && i < |s.queue| && s.queue[i].data
    ensures var j := |DataOnly(s.queue[..i])|;
            j < |s.forwards| && Inv(DropForward(s.(queue := Remove(s.queue, i)), j, env).s)
  {
    QueueRemove(s.forwards, s.queue, i);
    var s1 := s.(queue := Remove(s.queue, i));
    var j := |DataOnly(s.queue[..i])|;
    SameReads(s, s1);
    DropKeepsPending(s1, j, env);
    DropKeepsBuffers(s1, j, env);
    AccountReturn(s.forwards, s.returned, s.lent, j);
    var _ := DropForwardEffect(s1, j, env);
  }

  /** What is said of reads depends on the readers and the forward requests alone. */
  lemma SameReads(s: Session, t: Session)
    requires t.readers == s.readers && t.forwards == s.forwards
    ensures PendingExact(s) ==> PendingExact(t)
    ensures OpenWhilePending(s) ==> OpenWhilePending(t)
  {
    assert forall k :: HasRead(t, k) <==> HasRead(s, k);
    assert forall k :: HasRead(t, k) ==> ReadOf(t, k) == ReadOf(s, k);
  }

  /** Giving a message up keeps the loan invariant, whether by ack, local loss or dismissal. */
  lemma ReleaseKeepsInv(s: Session, i: nat, env: nat -> Env)
    requires Inv(s) && i < |s.queue|
    ensures Inv(ReleaseMessage(s, i, env).s)
  {
    ReleaseIsDrop(s, i, env);
    if s.queue[i].data {
      DropKeepsInv(s, i, env);
    } else {
      QueueRemove(s.forwards, s.queue, i);
      SameReads(s, s.(queue := Remove(s.queue, i)));
    }
  }

  // ----- a sample arrives -----

  /** A buffer fresh from `TakeBuffer` is neither on loan nor in the pool. */
  lemma TakenBufferApart(s: Session)
    requires BuffersApart(s)
    ensures var (s1, buf) := TakeBuffer(s);
            && BuffersApart(s1) && buf < s1.made && buf !in s1.pool
            && (forall i :: 0 <= i < |s.forwards| ==> s.forwards[i].data.buf != buf)
            && s1 == s.(pool := s1.pool, made := s1.made)
  {
    if s.pool != [] {
      assert s.pool[0] in s.pool;
    }
  }

  lemma AppendLoan(fs: seq<Forward>, returned: seq<nat>, lent: nat, f: Forward)
    requires AllAccounted(fs, returned, lent) && f.loan == lent
    ensures AllAccounted(fs + [f], returned, lent + 1)
  {
    forall i | 0 <= i < |fs|
      ensures fs[i].loan < lent
    {
      assert Outstanding(fs, fs[i].loan);
    }
    forall l: nat
      ensures l < lent + 1 <==> l in returned || Outstanding(fs + [f], l)
    {
      if Outstanding(fs, l) {
        var i :| 0 <= i < |fs| && fs[i].loan == l;
        assert (fs + [f])[i].loan == l;
      }
      if l == lent {
        assert (fs + [f])[|fs|].loan == l;
      }
      if Outstanding(fs + [f], l) {
        var i :| 0 <= i < |fs + [f]| && (fs + [f])[i].loan == l;
        assert i < |fs| ==> Outstanding(fs, l);
      }
    }
  }

  lemma AppendMessage(s: Session, f: Forward)
    requires QueueExact(s) && NextOnStream(s.queue, f.stream, f.sn)
    ensures QueueExact(s.(forwards := s.forwards + [f], queue := s.queue + [Message(f.stream, f.sn, true)]))
  {
    DataConcat(s.queue, [Message(f.stream, f.sn, true)]);
    assert DataOnly([Message(f.stream, f.sn, true)]) == [Message(f.stream, f.sn, true)];
  }

  lemma AppendPending(s: Session, id: ReaderId, a: Reader, f: Forward)
    requires PendingExact(s) && OpenWhilePending(s) && HasRead(s, id) && ReadOf(s, id).open
    requires f.data.reader == id && Reliable(f.stream)
    requires a.read.Some? && a.read.value.samples == ReadOf(s, id).samples + [f.data] && a.read.value.open
    ensures var t := s.(forwards := s.forwards + [f], readers := s.readers[id := a]);
            PendingExact(t) && OpenWhilePending(t)
  {
    var t := s.(forwards := s.forwards + [f], readers := s.readers[id := a]);
    forall k | HasRead(t, k)
      ensures ReadOf(t, k).samples == Mine(t.forwards, k)
    {
      MineConcat(s.forwards, [f], k);
      assert k != id ==> HasRead(s, k);
    }
    forall k | HasRead(t, k) && !ReadOf(t, k).open
      ensures ReadOf(t, k).samples == []
    {
      assert HasRead(s, k);
    }
  }

  lemma KeptSamples(s: Session, id: ReaderId, a: Reader)
    requires PendingExact(s) && OpenWhilePending(s) && HasRead(s, id)
    requires a.read.Some? && a.read.value.samples == ReadOf(s, id).samples && a.read.value.open == ReadOf(s, id).open
    ensures var t := s.(readers := s.readers[id := a]); PendingExact(t) && OpenWhilePending(t)
  {
    var t := s.(readers := s.readers[id := a]);
    assert forall k :: HasRead(t, k) <==> HasRead(s, k);
    assert forall k :: HasRead(t, k) ==> ReadOf(t, k).samples == ReadOf(s, k).samples && ReadOf(t, k).open == ReadOf(s, k).open;
  }

  /** The buffer of a sample that was not taken goes to the reuse pool. */
  lemma PutBackKeepsInv(s: Session)
    requires Inv(s)
    ensures var (s1, buf) := TakeBuffer(s); Inv(s1.(pool := s1.pool + [buf]))
  {
    TakenBufferApart(s);
    var (s1, buf) := TakeBuffer(s);
    SameReads(s, s1.(pool := s1.pool + [buf]));
  }

  lemma CountKeepsInv(s: Session, id: ReaderId, sn: int, now: int)
    requires Inv(s) && HasRead(s, id)
    ensures var (s1, buf) := TakeBuffer(s); Inv(s1.(readers := s.readers[id := Counted(s.readers[id], sn, now)]))
  {
    TakenBufferApart(s);
    var a := Counted(s.readers[id], sn, now);
    KeptSamples(s, id, a);
    SameReads(s.(readers := s.readers[id := a]), TakeBuffer(s).0.(readers := s.readers[id := a]));
  }

  lemma RetainKeepsInv(s: Session, id: ReaderId, sn: int, now: int, mn: nat)
    requires Inv(s) && HasRead(s, id) && ReadOf(s, id).open && Reliable(s.readers[id].stream)
    requires NextOnStream(s.queue, s.readers[id].stream, mn)
    ensures var (s1, buf) := TakeBuffer(s);
            var a := s.readers[id];
            var data := Received(buf, id, sn);
            Inv(s1.(readers := s.readers[id := Retained(a, data, now)],
                    forwards := s.forwards + [Forward(data, a.stream, mn, s.lent)],
                    queue := s.queue + [Message(a.stream, mn, true)],
                    lent := s.lent + 1))
  {
    TakenBufferApart(s);
    var (s1, buf) := TakeBuffer(s);
    var a := s.readers[id];
    var f := Forward(Received(buf, id, sn), a.stream, mn, s.lent);
    AppendLoan(s.forwards, s.returned, s.lent, f);
    AppendMessage(s, f);
    AppendPending(s, id, Retained(a, f.data, now), f);
    var t := s.(forwards := s.forwards + [f], readers := s.readers[id := Retained(a, f.data, now)]);
    SameReads(t, t.(pool := s1.pool, made := s1.made, queue := s.queue + [Message(a.stream, mn, true)], lent := s.lent + 1));
  }

  /** What becomes of an arriving sample is one of four things. */
  lemma ProcessCases(s: Session, id: ReaderId, sn: int, now: int, d: Delivery)
    requires HasRead(s, id)
    ensures var t := ProcessSample(s, id, sn, now, d).s;
            var (s1, buf) := TakeBuffer(s);
            var a := s.readers[id];
            || t == s || t == s1.(pool := s1.pool + [buf])
            || t == s1.(readers := s.readers[id := Counted(a, sn, now)])
            || (d.Sent? && Reliable(a.stream)
                && t == s1.(readers := s.readers[id := Retained(a, Received(buf, id, sn), now)],
                            forwards := s.forwards + [Forward(Received(buf, id, sn), a.stream, d.sn, s.lent)],
                            queue := s.queue + [Message(a.stream, d.sn, true)], lent := s.lent + 1))
  {
  }

  /** Whatever becomes of an arriving sample, the loan invariant stays. */
  lemma ProcessKeepsInv(s: Session, id: ReaderId, sn: int, now: int, d: Delivery)
    requires Inv(s) && HasRead(s, id) && ReadOf(s, id).open
    requires d.Sent? ==> NextOnStream(s.queue, s.readers[id].stream, d.sn)
    ensures Inv(ProcessSample(s, id, sn, now, d).s)
  {
    ProcessCases(s, id, sn, now, d);
    PutBackKeepsInv(s);
    CountKeepsInv(s, id, sn, now);
    if d.Sent? && Reliable(s.readers[id].stream) {
      RetainKeepsInv(s, id, sn, now, d.sn);
    }
  }

  // ----- reads come and go -----

  lemma NoForwardOf(s: Session, id: ReaderId)
    requires PendingExact(s) && (HasRead(s, id) ==> ReadOf(s, id).samples == [])
    ensures forall i :: 0 <= i < |s.forwards| ==> s.forwards[i].data.reader != id
  {
    forall i | 0 <= i < |s.forwards|
      ensures s.forwards[i].data.reader != id
    {
      MineSplit(s.forwards, i, id);
    }
  }

  /** Taking down a read that has nothing pending keeps the invariant. */
  lemma EndCancelKeepsInv(s: Session, id: ReaderId)
    requires Inv(s) && (HasRead(s, id) ==> ReadOf(s, id).samples == [])
    ensures Inv(EndCancel(s, id))
  {
    var t := EndCancel(s, id);
    NoForwardOf(s, id);
    assert forall k :: HasRead(t, k) <==> HasRead(s, k) && k != id;
    assert forall k :: HasRead(t, k) ==> ReadOf(t, k) == ReadOf(s, k);
  }

  lemma {:induction false} DrainKeepsInv(s: Session, m: Match, env: nat -> Env)
    requires Inv(s)
    ensures var d := Drain(s, m, env);
            && Inv(d.s)
            && (d.out.Blocked? ==> HasRead(d.s, d.out.id) && !ReadOf(d.s, d.out.id).open)
    decreases |s.queue|
  {
    var g := MatchIndex(s.forwards, m);
    if g < |s.forwards| {
      var i := QueuedIndex(s.queue, s.forwards[g].stream, s.forwards[g].sn);
      if i < |s.queue| {
        ReleaseKeepsInv(s, i, env);
        var r := ReleaseMessage(s, i, env);
        if !r.out.Completed? {
          DrainKeepsInv(r.s, m, env);
        }
      }
    }
  }

  lemma {:induction false} DrainAllKeepsInv(s: Session, m: Match, env: nat -> Env)
    requires Inv(s)
    ensures Inv(DrainAll(s, m, env).s)
    decreases |s.queue|
  {
    DrainKeepsInv(s, m, env);
    var d := Drain(s, m, env);
    if d.out.Blocked? {
      EndCancelKeepsInv(d.s, d.out.id);
      DrainAllKeepsInv(EndCancel(d.s, d.out.id), m, env);
    }
  }
}
