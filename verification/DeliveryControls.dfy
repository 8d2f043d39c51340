/** The delivery control of a READ: a reader's state keeps the last one given, and a READ that
    gives none is delivered under it. */
module DeliveryControls {
  import opened SessionState

  /** How many samples, for how long and how far apart; zero bounds nothing. */
  datatype Control = Control(max: nat, maxElapsed: nat, pace: nat)

  const UNBOUNDED := Control(0, 0, 0)

  function Used(kept: Control, asked: Option<Control>): Control { if asked.Some? then asked.value else kept }

  /** The controls that a reader's READs are delivered under, one after the other. */
  function Uses(kept: Control, asks: seq<Option<Control>>): (us: seq<Control>)
    ensures |us| == |asks|
    decreases |asks|
  {
    if asks == [] then [] else [Used(kept, asks[0])] + Uses(Used(kept, asks[0]), asks[1..])
  }

  /** The READ at `j` is delivered under the control given last, at `j` or before; under the first
      one kept if none was given. */
  lemma {:induction false} UsesLast(kept: Control, asks: seq<Option<Control>>, j: nat)
    requires j < |asks|
    ensures (exists i :: 0 <= i <= j && asks[i] == Some(Uses(kept, asks)[j]) && forall k :: i < k <= j ==> asks[k].None?)
            || (Uses(kept, asks)[j] == kept && forall k :: 0 <= k <= j ==> asks[k].None?)
    decreases |asks|
  {
    var rest := asks[1..];
    var first := Used(kept, asks[0]);
    assert forall k :: 0 <= k < |rest| ==> rest[k] == asks[k + 1];
    assert Uses(kept, asks)[0] == first;
    if j > 0 {
      UsesLast(first, rest, j - 1);
      assert Uses(kept, asks)[j] == Uses(first, rest)[j - 1];
      if exists i :: 0 <= i <= j - 1 && rest[i] == Some(Uses(first, rest)[j - 1]) && forall k :: i < k <= j - 1 ==> rest[k].None? {
        var i :| 0 <= i <= j - 1 && rest[i] == Some(Uses(first, rest)[j - 1]) && forall k :: i < k <= j - 1 ==> rest[k].None?;
        forall k | i + 1 < k <= j
          ensures asks[k].None?
        {
          assert rest[k - 1].None?;
        }
        assert asks[i + 1] == Some(Uses(kept, asks)[j]);
      } else {
        forall k | 0 < k <= j
          ensures asks[k].None?
        {
          assert rest[k - 1].None?;
        }
        assert asks[0].Some? ==> asks[0] == Some(Uses(kept, asks)[j]);
      }
    } else {
      assert asks[0].Some? ==> asks[0] == Some(Uses(kept, asks)[0]);
    }
  }

  /** Every READ is delivered as it was asked for, without a bound if it asked for none. */
  ghost predicate AsAsked(asks: seq<Option<Control>>) {
    forall j :: 0 <= j < |asks| ==> Uses(UNBOUNDED, asks)[j] == Used(UNBOUNDED, asks[j])
  }

  /** Between a READ with a bound and a later one without a control comes one that asks for no
      bound. */
  predicate Lifted(asks: seq<Option<Control>>) {
    forall i, j :: 0 <= i < j < |asks| && asks[i].Some? && asks[i] != Some(UNBOUNDED) && asks[j].None? ==>
      exists k :: i < k < j && asks[k] == Some(UNBOUNDED)
  }

  /** The READs of a reader are all delivered as asked for exactly if none without a control comes
      after a bounded one that nobody has lifted. */
  lemma AsAskedExactly(asks: seq<Option<Control>>)
    ensures AsAsked(asks) <==> Lifted(asks)
  {
    forall j | 0 <= j < |asks|
      ensures Lifted(asks) ==> Uses(UNBOUNDED, asks)[j] == Used(UNBOUNDED, asks[j])
    {
      UsesLast(UNBOUNDED, asks, j);
    }
    forall i, j | 0 <= i < j < |asks| && asks[i].Some? && asks[i] != Some(UNBOUNDED) && asks[j].None?
      ensures AsAsked(asks) ==> exists k :: i < k < j && asks[k] == Some(UNBOUNDED)
    {
      UsesLast(UNBOUNDED, asks, j);
      if AsAsked(asks) {
        assert Uses(UNBOUNDED, asks)[j] == UNBOUNDED;
        assert asks[i].Some?;
      }
    }
  }

  /** What the XRCE layer keeps for a reader. */
  class ReaderState {
    var control: Control

    constructor ()
      ensures control == UNBOUNDED
    {
      control := UNBOUNDED;
    }

    /** Takes the control of a READ, if it gives one, and says what the read is delivered under. */
    method TakeControl(asked: Option<Control>) returns (used: Control)
      modifies this
      ensures used == control == Used(old(control), asked)
    {
      if asked.Some? {
        control := asked.value;
      }
      used := control;
    }
  }
}
