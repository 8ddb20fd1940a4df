/**
 * The request queue of a PubControlClient and what its worker does with it:
 * a drain step takes at most ten publish requests from the head, in order,
 * and stops early at a stop request; a batch is sent in one transport call
 * whose outcome every callback of the batch then receives.
 */
module Requests {
  import opened Wrappers
  import opened Values
  import opened Callbacks

  /** A queued publish: the uri and header read at call time, the exports, and the optional callback. */
  datatype PubRequest = PubRequest(
    uri: Option<string>,
    auth: Option<string>,
    exports: seq<Record>,
    callback: Option<Callback>)

  /** An entry of the queue: `{"pub", uri, auth, exports, callback}` or `{"stop"}`. */
  datatype Req = Publish(request: PubRequest) | Stop

  /** The most requests one drain step takes. */
  const BatchLimit: nat := 10

  /** The requests a drain step takes, whether it met a stop request, and what stays queued. */
  datatype Drained = Drained(batch: seq<PubRequest>, quit: bool, rest: seq<Req>)

  /** Publish requests as they stand in the queue. */
  function Queued(ps: seq<PubRequest>): seq<Req> {
    seq(|ps|, i requires 0 <= i < |ps| => Publish(ps[i]))
  }

  /** Take from the head while there is room, stopping at (and consuming) a stop request. */
  function TakeBatch(q: seq<Req>, room: nat): Drained
    decreases room
  {
    if q == [] || room == 0 then Drained([], false, q)
    else match q[0]
      case Stop => Drained([], true, q[1..])
      case Publish(p) =>
        var d := TakeBatch(q[1..], room - 1);
        Drained([p] + d.batch, d.quit, d.rest)
  }

  /** The inner loop of the worker's `run`. */
  function Drain(q: seq<Req>): Drained {
    TakeBatch(q, BatchLimit)
  }

  /**
   * The loop of a drain step, request by request: `acc` taken so far, room
   * for `room` more, and `q` still queued.
   */
  function Continue(acc: seq<PubRequest>, q: seq<Req>, room: nat): Drained
    decreases room
  {
    if q == [] || room == 0 then Drained(acc, false, q)
    else if q[0].Stop? then Drained(acc, true, q[1..])
    else Continue(acc + [q[0].request], q[1..], room - 1)
  }

  /** The loop computes the drain step: whatever it has taken so far comes first. */
  lemma {:induction false} ContinueTakes(acc: seq<PubRequest>, q: seq<Req>, room: nat)
    ensures var d := TakeBatch(q, room); Continue(acc, q, room) == Drained(acc + d.batch, d.quit, d.rest)
    decreases room
  {
    if q == [] || room == 0 || q[0].Stop? {
      assert acc + [] == acc;
    } else {
      var d := TakeBatch(q[1..], room - 1);
      ContinueTakes(acc + [q[0].request], q[1..], room - 1);
      assert acc + ([q[0].request] + d.batch) == acc + [q[0].request] + d.batch;
    }
  }

  /** A drain step is the loop started with nothing taken and full room. */
  lemma DrainIsContinue(q: seq<Req>)
    ensures Drain(q) == Continue([], q, BatchLimit)
  {
    ContinueTakes([], q, BatchLimit);
    assert [] + Drain(q).batch == Drain(q).batch;
  }

  lemma QueuedAppend(a: seq<PubRequest>, b: seq<PubRequest>)
    ensures Queued(a + b) == Queued(a) + Queued(b)
  {
  }

  /**
   * `d` is a FIFO, bounded drain of `q`: the batch is the head of the queue,
   * followed by the stop request when it quit, followed by what stays
   * queued; it holds at most `room` requests, and requests stay behind
   * without a quit only when the batch is full.
   */
  predicate SplitsAs(q: seq<Req>, room: nat, d: Drained) {
    && Queued(d.batch) + (if d.quit then [Stop] else []) + d.rest == q
    && |d.batch| <= room
    && (!d.quit && d.rest != [] ==> |d.batch| == room)
  }

  /** A publish request in front of a split queue goes in front of its batch. */
  lemma SplitsCons(p: PubRequest, q: seq<Req>, room: nat, d: Drained)
    requires SplitsAs(q, room, d)
    ensures SplitsAs([Publish(p)] + q, room + 1, Drained([p] + d.batch, d.quit, d.rest))
  {
    var tail := (if d.quit then [Stop] else []) + d.rest;
    QueuedAppend([p], d.batch);
    assert Queued([p] + d.batch) + tail == [Publish(p)] + (Queued(d.batch) + tail);
  }

  lemma {:induction false} TakeBatchSplits(q: seq<Req>, room: nat)
    ensures SplitsAs(q, room, TakeBatch(q, room))
    decreases room
  {
    if q == [] || room == 0 {
      assert Queued([]) == [];
    } else if q[0].Stop? {
      assert Queued([]) + [Stop] + q[1..] == q;
    } else {
      TakeBatchSplits(q[1..], room - 1);
      SplitsCons(q[0].request, q[1..], room - 1, TakeBatch(q[1..], room - 1));
      assert [Publish(q[0].request)] + q[1..] == q;
    }
  }

  /** `Drain` takes at most ten requests, in FIFO order, and leaves whatever is behind a stop request queued. */
  lemma DrainSplits(q: seq<Req>)
    ensures SplitsAs(q, BatchLimit, Drain(q))
    ensures Drain(q).quit ==> q[|Drain(q).batch|] == Stop && Drain(q).rest == q[|Drain(q).batch| + 1..]
  {
    TakeBatchSplits(q, BatchLimit);
    var d := Drain(q);
    if d.quit {
      var n := |d.batch|;
      assert |Queued(d.batch)| == n;
      assert q[n] == (Queued(d.batch) + [Stop] + d.rest)[n];
      assert q[n + 1..] == (Queued(d.batch) + [Stop] + d.rest)[n + 1..];
    }
  }

  /** Taking from publish requests followed by `tail`. */
  lemma {:induction false} TakePublishes(ps: seq<PubRequest>, tail: seq<Req>, room: nat)
    ensures |ps| >= room ==>
              TakeBatch(Queued(ps) + tail, room) == Drained(ps[..room], false, Queued(ps[room..]) + tail)
    ensures |ps| < room ==>
              var d := TakeBatch(tail, room - |ps|);
              TakeBatch(Queued(ps) + tail, room) == Drained(ps + d.batch, d.quit, d.rest)
    decreases room
  {
    var q := Queued(ps) + tail;
    if ps == [] {
      assert q == tail;
    } else if room != 0 {
      assert q[0] == Publish(ps[0]);
      assert q[1..] == Queued(ps[1..]) + tail;
      TakePublishes(ps[1..], tail, room - 1);
      assert [ps[0]] + ps[1..] == ps;
      if |ps| >= room {
        assert [ps[0]] + ps[1..][..room - 1] == ps[..room];
        assert ps[1..][room - 1..] == ps[room..];
      }
    } else {
      assert ps[room..] == ps;
    }
  }

  /**
   * With fifteen publish requests queued and no stop request, a drain step
   * takes the first ten and leaves the other five.
   */
  lemma DrainFifteen(ps: seq<PubRequest>)
    requires |ps| == 15
    ensures Drain(Queued(ps)) == Drained(ps[..10], false, Queued(ps[10..]))
    ensures |Drain(Queued(ps)).rest| == 5
  {
    TakePublishes(ps, [], BatchLimit);
    assert Queued(ps) + [] == Queued(ps);
    assert Queued(ps[10..]) + [] == Queued(ps[10..]);
  }

  /**
   * Draining publish requests followed by a stop request: fewer than ten
   * are taken together with the stop request, which ends the worker;
   * otherwise ten are taken and the rest, stop request included, stays.
   */
  lemma DrainBeforeStop(ps: seq<PubRequest>)
    ensures |ps| < BatchLimit ==> Drain(Queued(ps) + [Stop]) == Drained(ps, true, [])
    ensures |ps| >= BatchLimit ==>
              Drain(Queued(ps) + [Stop]) == Drained(ps[..BatchLimit], false, Queued(ps[BatchLimit..]) + [Stop])
  {
    TakePublishes(ps, [Stop], BatchLimit);
    assert ps + [] == ps;
  }

  /** The exports of a batch concatenated in request order (`items.addAll`). */
  function ItemsOf(reqs: seq<PubRequest>): seq<Record> {
    if reqs == [] then [] else ItemsOf(reqs[..|reqs| - 1]) + reqs[|reqs| - 1].exports
  }

  /** The non-null callbacks of a batch, in request order. */
  function CallbacksOf(reqs: seq<PubRequest>): (cbs: seq<Callback>)
    ensures forall cb :: cb in cbs ==> exists p :: p in reqs && p.callback == Some(cb)
  {
    if reqs == [] then []
    else
      var last := reqs[|reqs| - 1];
      var init := CallbacksOf(reqs[..|reqs| - 1]);
      assert forall p :: p in reqs[..|reqs| - 1] ==> p in reqs;
      init + if last.callback.Some? then [last.callback.value] else []
  }

  lemma {:induction false} ItemsOfAppend(a: seq<PubRequest>, b: seq<PubRequest>)
    ensures ItemsOf(a + b) == ItemsOf(a) + ItemsOf(b)
  {
    if b != [] {
      ItemsOfAppend(a, b[..|b| - 1]);
      assert (a + b)[..|a + b| - 1] == a + b[..|b| - 1];
    } else {
      assert a + b == a;
    }
  }

  lemma {:induction false} CallbacksOfAppend(a: seq<PubRequest>, b: seq<PubRequest>)
    ensures CallbacksOf(a + b) == CallbacksOf(a) + CallbacksOf(b)
  {
    if b != [] {
      CallbacksOfAppend(a, b[..|b| - 1]);
      assert (a + b)[..|a + b| - 1] == a + b[..|b| - 1];
    } else {
      assert a + b == a;
    }
  }

  /** A `pubCall`: uri, authorization header and the items of the body. */
  datatype TransportCall = TransportCall(uri: Option<string>, auth: Option<string>, items: seq<Record>)

  /** What a `pubCall` does: returns, or throws an exception carrying a (possibly null) message. */
  datatype TransportOutcome = Delivered | Raised(message: Option<string>)

  /** The pair every callback of a batch receives: the result stays true; the message is the exception's. */
  function BatchOutcome(o: TransportOutcome): Outcome {
    Outcome(true, if o.Raised? then o.message else None)
  }

  /** The call a non-empty batch makes: the client's uri, the first request's header, all exports. */
  function BatchCall(uri: Option<string>, reqs: seq<PubRequest>): Option<TransportCall> {
    if reqs == [] then None else Some(TransportCall(uri, reqs[0].auth, ItemsOf(reqs)))
  }

  /**
   * The `completed` calls after a batch: exactly one per non-null callback,
   * in request order, all with the same pair.
   */
  function BatchCompletions(reqs: seq<PubRequest>, o: TransportOutcome): (cs: seq<Completion>)
    ensures |cs| == |CallbacksOf(reqs)|
    ensures forall k :: 0 <= k < |cs| ==> cs[k] == Completion(CallbacksOf(reqs)[k], BatchOutcome(o))
  {
    if reqs == [] then []
    else
      var last := reqs[|reqs| - 1];
      BatchCompletions(reqs[..|reqs| - 1], o)
      + if last.callback.Some? then [Completion(last.callback.value, BatchOutcome(o))] else []
  }

  lemma {:induction false} BatchCompletionsAppend(a: seq<PubRequest>, b: seq<PubRequest>, o: TransportOutcome)
    ensures BatchCompletions(a + b, o) == BatchCompletions(a, o) + BatchCompletions(b, o)
  {
    if b != [] {
      var init := b[..|b| - 1];
      var last := b[|b| - 1];
      var x := if last.callback.Some? then [Completion(last.callback.value, BatchOutcome(o))] else [];
      BatchCompletionsAppend(a, init, o);
      assert (a + b)[..|a + b| - 1] == a + init;
      assert (a + b)[|a + b| - 1] == last;
      assert BatchCompletions(a + b, o) == BatchCompletions(a, o) + BatchCompletions(init, o) + x;
    } else {
      assert a + b == a;
    }
  }

  /** The handlers referred to by the queued publish requests. */
  ghost function HandlersIn(q: seq<Req>): set<PccCallbackHandler> {
    set r | r in q && r.Publish? && r.request.callback.Some? && r.request.callback.value.Joined?
      :: r.request.callback.value.handler
  }

  /**
   * A drain step reaches only handlers of the queue it drains: those of the
   * batch's completions and those still queued.
   */
  lemma DrainHandlers(q: seq<Req>, o: TransportOutcome)
    ensures HandlersOf(BatchCompletions(Drain(q).batch, o)) <= HandlersIn(q)
    ensures HandlersIn(Drain(q).rest) <= HandlersIn(q)
  {
    TakeBatchSplits(q, BatchLimit);
    var d := Drain(q);
    BatchHandlersIn(d.batch, o);
    var stop := if d.quit then [Stop] else [];
    HandlersInAppend(Queued(d.batch) + stop, d.rest);
    HandlersInAppend(Queued(d.batch), stop);
  }

  /** The handlers of a batch's completions are those its queued requests refer to. */
  lemma BatchHandlersIn(batch: seq<PubRequest>, o: TransportOutcome)
    ensures HandlersOf(BatchCompletions(batch, o)) <= HandlersIn(Queued(batch))
  {
    var cs := BatchCompletions(batch, o);
    forall h | h in HandlersOf(cs)
      ensures h in HandlersIn(Queued(batch))
    {
      var c :| c in cs && c.callback.Joined? && c.callback.handler == h;
      var k :| 0 <= k < |cs| && cs[k] == c;
      assert c.callback in CallbacksOf(batch);
      var p :| p in batch && p.callback == Some(c.callback);
      var i :| 0 <= i < |batch| && batch[i] == p;
      assert Queued(batch)[i] == Publish(p);
    }
  }

  /** A queue made of two parts refers to the handlers of both. */
  lemma HandlersInAppend(a: seq<Req>, b: seq<Req>)
    ensures HandlersIn(a + b) == HandlersIn(a) + HandlersIn(b)
  {
    assert forall r :: r in a + b <==> r in a || r in b;
  }

  /** The publish requests of a queue, in order. */
  function Pending(q: seq<Req>): (ps: seq<PubRequest>)
    ensures Stop !in q ==> Queued(ps) == q
  {
    if q == [] then []
    else
      var init := q[..|q| - 1];
      var last := q[|q| - 1];
      assert Stop in init ==> Stop in q;
      var ps := Pending(init) + if last.Publish? then [last.request] else [];
      assert Stop !in q ==> Queued(ps) == Queued(Pending(init)) + [last] by {
        if Stop !in q {
          assert last.Publish?;
          QueuedAppend(Pending(init), [last.request]);
        }
      }
      assert init + [last] == q;
      ps
  }

  /**
   * The batches a worker sends for `ps` once a stop request stands behind
   * them: groups of ten in order, then the remainder when it is not empty.
   */
  function Chunks(ps: seq<PubRequest>): seq<seq<PubRequest>>
    decreases |ps|
  {
    if ps == [] then []
    else if |ps| < BatchLimit then [ps]
    else [ps[..BatchLimit]] + Chunks(ps[BatchLimit..])
  }

  /** Batches laid end to end. */
  function Flatten(bs: seq<seq<PubRequest>>): seq<PubRequest> {
    if bs == [] then [] else Flatten(bs[..|bs| - 1]) + bs[|bs| - 1]
  }

  lemma {:induction false} FlattenAppend(a: seq<seq<PubRequest>>, b: seq<seq<PubRequest>>)
    ensures Flatten(a + b) == Flatten(a) + Flatten(b)
  {
    if b == [] {
      assert a + b == a;
    } else {
      var init, last := b[..|b| - 1], b[|b| - 1];
      FlattenAppend(a, init);
      assert (a + b)[..|a + b| - 1] == a + init;
      assert (a + b)[|a + b| - 1] == last;
      assert Flatten(a + b) == Flatten(a) + Flatten(init) + last;
    }
  }

  /**
   * Every pending request is sent exactly once and in order; every batch
   * holds between one and ten requests, and all but the last hold ten.
   */
  lemma {:induction false} ChunksCover(ps: seq<PubRequest>)
    ensures Flatten(Chunks(ps)) == ps
    ensures forall k :: 0 <= k < |Chunks(ps)| ==> 1 <= |Chunks(ps)[k]| <= BatchLimit
    ensures forall k :: 0 <= k < |Chunks(ps)| - 1 ==> |Chunks(ps)[k]| == BatchLimit
    decreases |ps|
  {
    if ps == [] {
    } else if |ps| < BatchLimit {
      assert Flatten([ps]) == Flatten([]) + ps;
    } else {
      var head, tail := ps[..BatchLimit], ps[BatchLimit..];
      ChunksCover(tail);
      FlattenAppend([head], Chunks(tail));
      assert Flatten([head]) == Flatten([]) + head;
      assert head + tail == ps;
    }
  }

  /** The completions of a run of batches, the `k`-th sent with outcome `outcomeOf(k)`. */
  function RunCompletions(bs: seq<seq<PubRequest>>, outcomeOf: nat -> TransportOutcome): seq<Completion> {
    if bs == [] then []
    else RunCompletions(bs[..|bs| - 1], outcomeOf) + BatchCompletions(bs[|bs| - 1], outcomeOf(|bs| - 1))
  }

  /** The callbacks the completions are addressed to, in order. */
  function Addressees(cs: seq<Completion>): seq<Callback> {
    seq(|cs|, k requires 0 <= k < |cs| => cs[k].callback)
  }

  /**
   * Across a run of batches every non-null callback is completed exactly
   * once, in the order its request was queued.
   */
  lemma {:induction false} RunCompletesEachCallback(bs: seq<seq<PubRequest>>, outcomeOf: nat -> TransportOutcome)
    ensures Addressees(RunCompletions(bs, outcomeOf)) == CallbacksOf(Flatten(bs))
  {
    if bs != [] {
      var init, last := bs[..|bs| - 1], bs[|bs| - 1];
      RunCompletesEachCallback(init, outcomeOf);
      CallbacksOfAppend(Flatten(init), last);
      var a := RunCompletions(init, outcomeOf);
      var b := BatchCompletions(last, outcomeOf(|bs| - 1));
      assert Addressees(a + b) == Addressees(a) + Addressees(b);
      assert Addressees(b) == CallbacksOf(last);
    }
  }

  /** The items of a run's transport calls, one call after another. */
  function RunItems(bs: seq<seq<PubRequest>>): seq<Record> {
    if bs == [] then [] else RunItems(bs[..|bs| - 1]) + ItemsOf(bs[|bs| - 1])
  }

  /** The calls of a run of batches carry the exports of all their requests, in order. */
  lemma {:induction false} RunItemsFlatten(bs: seq<seq<PubRequest>>)
    ensures RunItems(bs) == ItemsOf(Flatten(bs))
  {
    if bs != [] {
      var init, last := bs[..|bs| - 1], bs[|bs| - 1];
      RunItemsFlatten(init);
      ItemsOfAppend(Flatten(init), last);
    }
  }

  /**
   * Every export queued before a stop request is sent exactly once and in
   * queue order: the worker's calls, taken together, carry the exports of
   * the pending requests.
   */
  lemma RunSendsEachExport(ps: seq<PubRequest>)
    ensures RunItems(Chunks(ps)) == ItemsOf(ps)
  {
    RunItemsFlatten(Chunks(ps));
    ChunksCover(ps);
  }

  /**
   * When every batch meets the same transport outcome, the cut into batches
   * is invisible to the callbacks: they receive what one batch holding all
   * the requests would give them.
   */
  lemma {:induction false} UniformRunCompletions(bs: seq<seq<PubRequest>>, outcomeOf: nat -> TransportOutcome, o: TransportOutcome)
    requires forall k :: outcomeOf(k) == o
    ensures RunCompletions(bs, outcomeOf) == BatchCompletions(Flatten(bs), o)
  {
    if bs != [] {
      var init, last := bs[..|bs| - 1], bs[|bs| - 1];
      UniformRunCompletions(init, outcomeOf, o);
      BatchCompletionsAppend(Flatten(init), last, o);
    }
  }

  /**
   * The result passed to callbacks is `true` even when the transport call
   * raised; only the message tells a failure apart.
   */
  lemma FailedBatchReportsSuccess(reqs: seq<PubRequest>, message: Option<string>)
    ensures forall c :: c in BatchCompletions(reqs, Raised(message)) ==> c.outcome == Outcome(true, message)
  {
  }

  /** A stop request brings no handler into the queue. */
  lemma HandlersInStop(q: seq<Req>)
    ensures HandlersIn(q + [Stop]) == HandlersIn(q)
  {
    assert forall r :: r in q + [Stop] && r.Publish? ==> r in q;
  }

  /**
   * The batches sent so far followed by the chunks still pending make up
   * the chunks of everything that was pending; a drain step of ten keeps
   * this, and a last drain step of fewer than ten completes it.
   */
  lemma ChunksStep(done: seq<seq<PubRequest>>, left: seq<PubRequest>, all: seq<PubRequest>)
    requires done + Chunks(left) == Chunks(all)
    ensures |left| >= BatchLimit ==> done + [left[..BatchLimit]] + Chunks(left[BatchLimit..]) == Chunks(all)
    ensures 0 < |left| < BatchLimit ==> done + [left] == Chunks(all)
    ensures left == [] ==> done == Chunks(all)
  {
    if |left| >= BatchLimit {
      assert Chunks(left) == [left[..BatchLimit]] + Chunks(left[BatchLimit..]);
    } else if left == [] {
      assert done + [] == done;
    }
  }

  lemma RunCompletionsSnoc(bs: seq<seq<PubRequest>>, b: seq<PubRequest>, outcomeOf: nat -> TransportOutcome)
    ensures RunCompletions(bs + [b], outcomeOf) == RunCompletions(bs, outcomeOf) + BatchCompletions(b, outcomeOf(|bs|))
  {
    assert (bs + [b])[..|bs|] == bs;
  }
}
