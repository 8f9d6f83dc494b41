/**
  The alarm poll step (`pollBlinking` in server/index.ts) as a pure
  transition on the last observed sensor value, and what any run of
  ticks, starting from the initial `null`, emits.
*/
module Poll {
  import opened Wrappers
  import opened Dispatch

  /**
    The `value` field of the device's JSON reply. `data.value as boolean`
    is a cast, not a check, so a value that is not a boolean is kept as is:
    it is never `=== true` nor `=== false`.
  */
  datatype Reading = Bool(b: bool) | NotBool

  /** The reply body: `Unparsable` when `res.json()` or `data.value` throws. */
  datatype Payload = Unparsable | Parsed(value: Reading)

  /** One poll of `/binary_sensor/Blinking`: the fetch threw, or the device replied with a status. */
  datatype PollOutcome = FetchFailed | Replied(status: int, payload: Payload)

  /** `res.ok`: the status is in the range 200-299. */
  predicate IsOk(status: int)
    ensures IsOk(status) <==> status / 100 == 2
  {
    200 <= status <= 299
  }

  /** The value a poll decoded, if it got as far as assigning `current`. */
  function Decoded(o: PollOutcome): (r: Option<Reading>)
    ensures r.Some? <==> o.Replied? && IsOk(o.status) && o.payload.Parsed?
    ensures r.Some? ==> r.value == o.payload.value
  {
    match o
    case Replied(status, Parsed(v)) => if IsOk(status) then Some(v) else None
    case _ => None
  }

  /** The new `lastBlinking` and the events fired by one tick. */
  datatype Tick = Tick(next: Option<Reading>, fired: seq<Event>)

  /**
    One call of `pollBlinking` from `lastBlinking == last`. Only a true-to-false
    edge of a decoded value fires anything; only a decoded value changes the state.
  */
  function PollStep(last: Option<Reading>, o: PollOutcome): (t: Tick)
    ensures t.fired == [Disarmed] <==> last == Some(Bool(true)) && Decoded(o) == Some(Bool(false))
    ensures t.fired == [] || t.fired == [Disarmed]
    ensures Decoded(o).Some? ==> t.next == Decoded(o)
    ensures Decoded(o).None? ==> t.next == last
  {
    match o
    case FetchFailed => Tick(last, [])        // caught and logged as a poll error
    case Replied(status, payload) =>
      if !IsOk(status) then Tick(last, [])    // early return on a non-ok response
      else
        match payload
        case Unparsable => Tick(last, [])     // thrown while decoding, caught
        case Parsed(current) =>
          Tick(Some(current),
               if last == Some(Bool(true)) && current == Bool(false) then [Disarmed] else [])
  }

  /** Consecutive ticks from `init`: the final state and every event in firing order. */
  function Run(init: Option<Reading>, os: seq<PollOutcome>): (t: Tick)
    ensures |t.fired| <= |os|
    ensures forall e :: e in t.fired ==> e == Disarmed
  {
    if os == [] then Tick(init, [])
    else
      var before := Run(init, os[..|os| - 1]);
      var step := PollStep(before.next, os[|os| - 1]);
      Tick(step.next, before.fired + step.fired)
  }

  /** `j` is the last tick of `os` that decoded a value. */
  ghost predicate LatestDecoded(os: seq<PollOutcome>, j: int)
  {
    0 <= j < |os| && Decoded(os[j]).Some?
    && forall k :: j < k < |os| ==> Decoded(os[k]).None?
  }

  /** After a run the state is the value of the latest decoding tick, or the initial one if there was none. */
  lemma {:induction false} RunRemembersLatest(init: Option<Reading>, os: seq<PollOutcome>)
    ensures (forall k :: 0 <= k < |os| ==> Decoded(os[k]).None?) ==> Run(init, os).next == init
    ensures forall j :: LatestDecoded(os, j) ==> Run(init, os).next == Decoded(os[j])
  {
    if os != [] {
      var n := |os| - 1;
      var p := os[..n];
      RunRemembersLatest(init, p);
      forall j | LatestDecoded(os, j) ensures Run(init, os).next == Decoded(os[j]) {
        if j < n {
          assert LatestDecoded(p, j) by {
            forall k | j < k < n ensures Decoded(p[k]).None? { assert p[k] == os[k]; }
          }
          assert p[j] == os[j];
        }
      }
      if forall k :: 0 <= k < |os| ==> Decoded(os[k]).None? {
        forall k | 0 <= k < n ensures Decoded(p[k]).None? { assert p[k] == os[k]; }
      }
    }
  }

  /** A run's state that is a decoded value comes from a latest decoding tick. */
  lemma {:induction false} StateHasSource(init: Option<Reading>, os: seq<PollOutcome>)
    requires init == None
    requires Run(init, os).next.Some?
    ensures exists j :: LatestDecoded(os, j) && Run(init, os).next == Decoded(os[j])
  {
    RunRemembersLatest(init, os);
    if forall k :: 0 <= k < |os| ==> Decoded(os[k]).None? {
      assert false;
    }
    var k :| 0 <= k < |os| && Decoded(os[k]).Some?;
    var j := LastDecodingFrom(os, k);
    assert LatestDecoded(os, j);
  }

  /** Some tick at or after `k` is the latest decoding tick. */
  lemma {:induction false} LastDecodingFrom(os: seq<PollOutcome>, k: int) returns (j: int)
    requires 0 <= k < |os| && Decoded(os[k]).Some?
    ensures k <= j && LatestDecoded(os, j)
    decreases |os| - k
  {
    if forall m :: k < m < |os| ==> Decoded(os[m]).None? {
      j := k;
    } else {
      var m :| k < m < |os| && Decoded(os[m]).Some?;
      j := LastDecodingFrom(os, m);
    }
  }

  /** The events of tick `i` of a run that started from the initial `null`. */
  function FiredAt(os: seq<PollOutcome>, i: nat): (es: seq<Event>)
    requires i < |os|
    ensures es == [] || es == [Disarmed]
  {
    PollStep(Run(None, os[..i]).next, os[i]).fired
  }

  /**
    Tick `i` fires `disarmed` exactly when it decodes `false` and the latest
    earlier decoding tick decoded `true`, with no decoding tick in between.
  */
  lemma DisarmedAtTick(os: seq<PollOutcome>, i: nat)
    requires i < |os|
    ensures FiredAt(os, i) == [Disarmed] <==>
              Decoded(os[i]) == Some(Bool(false))
              && exists j :: 0 <= j < i && Decoded(os[j]) == Some(Bool(true))
                             && forall k :: j < k < i ==> Decoded(os[k]).None?
  {
    var p := os[..i];
    RunRemembersLatest(None, p);
    if FiredAt(os, i) == [Disarmed] {
      StateHasSource(None, p);
      var j :| LatestDecoded(p, j) && Run(None, p).next == Decoded(p[j]);
      assert p[j] == os[j];
      forall k | j < k < i ensures Decoded(os[k]).None? { assert p[k] == os[k]; }
    }
    if Decoded(os[i]) == Some(Bool(false))
       && exists j :: 0 <= j < i && Decoded(os[j]) == Some(Bool(true))
                      && forall k :: j < k < i ==> Decoded(os[k]).None?
    {
      var j :| 0 <= j < i && Decoded(os[j]) == Some(Bool(true))
               && forall k :: j < k < i ==> Decoded(os[k]).None?;
      assert p[j] == os[j];
      assert LatestDecoded(p, j) by {
        forall k | j < k < i ensures Decoded(p[k]).None? { assert p[k] == os[k]; }
      }
    }
  }

  /** Starting from `null`, no tick fires before the first decoding tick, nor on that tick. */
  lemma FirstDecodingNeverDisarms(os: seq<PollOutcome>, i: nat)
    requires i < |os|
    requires forall k :: 0 <= k < i ==> Decoded(os[k]).None?
    ensures FiredAt(os, i) == []
  {
    DisarmedAtTick(os, i);
  }

  /** Between two `disarmed` events some tick decoded `true` again: the edge is never re-fired. */
  lemma DisarmsAreSeparatedByTrue(os: seq<PollOutcome>, i: nat, i': nat)
    requires i < i' < |os|
    requires FiredAt(os, i) == [Disarmed] && FiredAt(os, i') == [Disarmed]
    ensures exists j :: i < j < i' && Decoded(os[j]) == Some(Bool(true))
  {
    DisarmedAtTick(os, i);
    DisarmedAtTick(os, i');
    var j :| 0 <= j < i' && Decoded(os[j]) == Some(Bool(true))
             && forall k :: j < k < i' ==> Decoded(os[k]).None?;
    assert j != i;
    assert !(j < i);
  }

  /** A run's events are exactly the events of its ticks, in order. */
  lemma {:induction false} RunFiresTickEvents(os: seq<PollOutcome>)
    ensures |os| > 0 ==> Run(None, os).fired == Run(None, os[..|os| - 1]).fired + FiredAt(os, |os| - 1)
    ensures Run(None, os).fired == [] <==> forall i :: 0 <= i < |os| ==> FiredAt(os, i) == []
  {
    if os != [] {
      var n := |os| - 1;
      var p := os[..n];
      RunFiresTickEvents(p);
      forall i | 0 <= i < n ensures FiredAt(os, i) == FiredAt(p, i) {
        assert os[..i] == p[..i];
        assert os[i] == p[i];
      }
    }
  }

  /** The example trace: a failed fetch, then true, true, false fires one `disarmed`, on the last tick. */
  lemma ExampleTrace()
    ensures Run(None, [FetchFailed, Replied(200, Parsed(Bool(true))),
                       Replied(200, Parsed(Bool(true))), Replied(200, Parsed(Bool(false)))])
            == Tick(Some(Bool(false)), [Disarmed])
  {
    var os := [FetchFailed, Replied(200, Parsed(Bool(true))),
               Replied(200, Parsed(Bool(true))), Replied(200, Parsed(Bool(false)))];
    assert os[..1] == [FetchFailed];
    assert os[..2] == os[..1] + [os[1]];
    assert os[..3] == os[..2] + [os[2]];
    assert os[..1][..0] == [];
    assert Run(None, os[..1]) == Tick(None, []);
    assert Run(None, os[..2]) == Tick(Some(Bool(true)), []);
    assert Run(None, os[..3]) == Tick(Some(Bool(true)), []);
  }
}
