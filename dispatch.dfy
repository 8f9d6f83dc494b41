/**
  Webhook fan-out (`fireWebhooks` in server/index.ts): one payload is
  serialised once and POSTed to every subscriber url, in the order the
  table returns them; afterwards the settled outcomes are walked by index
  and every rejected delivery is logged against its own url.
*/
module Dispatch {

  /** The event payloads the server emits. */
  datatype Event = Armed(text: string) | Disarmed

  /** One outbound POST with a JSON body. The JSON encoding of the body is not modelled. */
  datatype Request = Post(url: string, body: Event)

  /** How one delivery settled, as `Promise.allSettled` reports it. */
  datatype Settled = Fulfilled | Rejected(reason: string)

  /** One line of the error log: "Webhook <url> failed: <reason>". */
  datatype Report = Failed(url: string, reason: string)

  /** The requests issued for `payload`: one per url, in list order, all with the same body. */
  function DispatchPlan(urls: seq<string>, payload: Event): (reqs: seq<Request>)
    ensures |reqs| == |urls|
    ensures forall i :: 0 <= i < |urls| ==> reqs[i].url == urls[i] && reqs[i].body == payload
  {
    if urls == [] then [] else [Post(urls[0], payload)] + DispatchPlan(urls[1..], payload)
  }

  /** The settled outcome of every request, in request order; `deliver` stands for the network. */
  function Settle(reqs: seq<Request>, deliver: Request -> Settled): (results: seq<Settled>)
    ensures |results| == |reqs|
    ensures forall i :: 0 <= i < |reqs| ==> results[i] == deliver(reqs[i])
  {
    seq(|reqs|, i requires 0 <= i < |reqs| => deliver(reqs[i]))
  }

  /** The failure log written after all deliveries settled: one line per rejected result, in index order. */
  function Failures(urls: seq<string>, results: seq<Settled>): (log: seq<Report>)
    requires |urls| == |results|
    ensures |log| <= |results|
  {
    if results == [] then []
    else
      var n := |results| - 1;
      Failures(urls[..n], results[..n])
        + (if results[n].Rejected? then [Failed(urls[n], results[n].reason)] else [])
  }

  /** The number of rejected deliveries, counted from the front. */
  function CountRejected(results: seq<Settled>): nat
  {
    if results == [] then 0
    else (if results[0].Rejected? then 1 else 0) + CountRejected(results[1..])
  }

  /** The log of two consecutive batches of results is the log of the first followed by that of the second. */
  lemma {:induction false} FailuresAppend(u1: seq<string>, r1: seq<Settled>, u2: seq<string>, r2: seq<Settled>)
    requires |u1| == |r1| && |u2| == |r2|
    ensures Failures(u1 + u2, r1 + r2) == Failures(u1, r1) + Failures(u2, r2)
    decreases |r2|
  {
    if r2 == [] {
      assert u1 + u2 == u1 && r1 + r2 == r1;
    } else {
      var n := |r2| - 1;
      var m := |r1 + r2| - 1;
      assert (u1 + u2)[..m] == u1 + u2[..n];
      assert (r1 + r2)[..m] == r1 + r2[..n];
      assert (r1 + r2)[m] == r2[n] && (u1 + u2)[m] == u2[n];
      FailuresAppend(u1, r1, u2[..n], r2[..n]);
    }
  }

  /**
    The log read from the front: the first result's line, if it was rejected,
    then the log of the rest. Each rejection is logged once, in index order.
  */
  lemma FailuresFromFront(urls: seq<string>, results: seq<Settled>)
    requires |urls| == |results| && results != []
    ensures Failures(urls, results)
            == (if results[0].Rejected? then [Failed(urls[0], results[0].reason)] else [])
               + Failures(urls[1..], results[1..])
  {
    assert urls == [urls[0]] + urls[1..] && results == [results[0]] + results[1..];
    FailuresAppend([urls[0]], [results[0]], urls[1..], results[1..]);
    assert [results[0]][..0] == [] && [urls[0]][..0] == [];
  }

  /** The log has exactly one line per rejected delivery. */
  lemma {:induction false} FailuresCount(urls: seq<string>, results: seq<Settled>)
    requires |urls| == |results|
    ensures |Failures(urls, results)| == CountRejected(results)
  {
    if results != [] {
      FailuresFromFront(urls, results);
      FailuresCount(urls[1..], results[1..]);
    }
  }

  /** Every logged failure names the url and the reason of one rejected delivery at the same index. */
  lemma {:induction false} FailuresSound(urls: seq<string>, results: seq<Settled>)
    requires |urls| == |results|
    ensures forall r :: r in Failures(urls, results) ==>
              exists i :: 0 <= i < |results| && results[i].Rejected?
                          && r == Failed(urls[i], results[i].reason)
  {
    if results != [] {
      var n := |results| - 1;
      FailuresSound(urls[..n], results[..n]);
      forall r | r in Failures(urls, results)
        ensures exists i :: 0 <= i < |results| && results[i].Rejected?
                            && r == Failed(urls[i], results[i].reason)
      {
        if r in Failures(urls[..n], results[..n]) {
          var i :| 0 <= i < n && results[..n][i].Rejected?
                   && r == Failed(urls[..n][i], results[..n][i].reason);
          assert results[i] == results[..n][i] && urls[i] == urls[..n][i];
        } else {
          assert results[n].Rejected? && r == Failed(urls[n], results[n].reason);
        }
      }
    }
  }

  /** Every rejected delivery is logged, against its own url. */
  lemma {:induction false} FailuresComplete(urls: seq<string>, results: seq<Settled>, i: nat)
    requires |urls| == |results|
    requires i < |results| && results[i].Rejected?
    ensures Failed(urls[i], results[i].reason) in Failures(urls, results)
  {
    var n := |results| - 1;
    if i < n {
      assert results[..n][i] == results[i] && urls[..n][i] == urls[i];
      FailuresComplete(urls[..n], results[..n], i);
    }
  }

  /** When every delivery was fulfilled nothing is logged. */
  lemma {:induction false} NoRejectionNoLog(urls: seq<string>, results: seq<Settled>)
    requires |urls| == |results|
    requires forall i :: 0 <= i < |results| ==> results[i].Fulfilled?
    ensures Failures(urls, results) == []
  {
    if results != [] {
      var n := |results| - 1;
      NoRejectionNoLog(urls[..n], results[..n]);
    }
  }
}
