/**
 * PubControlClient: publishes items to one endpoint, either synchronously
 * (one transport call) or asynchronously through a request queue that a
 * worker drains in batches of at most ten. The worker thread is modelled by
 * its effect: `Finish` queues a stop request and runs the worker's drain
 * steps until the stop request is reached, which is what `join` waits for.
 */
module Client {
  import opened Wrappers
  import opened Values
  import opened Items
  import opened Callbacks
  import opened Auth
  import opened Requests

  /** The key under which each export names its channel. */
  const ChannelKey: string := "channel"

  /** An item's export addressed to one channel. */
  function WithChannel(rec: Record, channel: string): Record {
    rec[ChannelKey := Text(channel)]
  }

  /**
   * The exports built by `publish` and `publishAsync`: one per channel, in
   * channel order, each the item's export with `channel` set.
   */
  function ChannelExports(channels: seq<string>, item: Item): Result<seq<Record>, ExportError> {
    if channels == [] then Success([])
    else match Exported(item)
      case Failure(e) => Failure(e)
      case Success(rec) => Success(Stamped(rec, channels))
  }

  /** One copy of `rec` per channel, in channel order, each naming its channel. */
  function Stamped(rec: Record, channels: seq<string>): seq<Record> {
    seq(|channels|, k requires 0 <= k < |channels| => WithChannel(rec, channels[k]))
  }

  lemma StampedNext(rec: Record, channels: seq<string>, i: nat)
    requires i < |channels|
    ensures Stamped(rec, channels[..i + 1]) == Stamped(rec, channels[..i]) + [WithChannel(rec, channels[i])]
  {
  }

  /**
   * With no channels the item is never exported, so even an invalid item
   * yields no error; otherwise the item's export error is the error. Each
   * export holds the item's entries and `channel` naming its channel, which
   * overrides an entry of that name.
   */
  lemma ChannelExportsSpec(channels: seq<string>, item: Item)
    ensures channels == [] ==> ChannelExports(channels, item) == Success([])
    ensures channels != [] ==> (ChannelExports(channels, item).Failure? <==> HasDuplicateClass(item.formats))
    ensures ChannelExports(channels, item).Failure? ==> ChannelExports(channels, item).error == Exported(item).error
    ensures ChannelExports(channels, item).Success? ==> |ChannelExports(channels, item).value| == |channels|
    ensures ChannelExports(channels, item).Success? && channels != [] ==>
              var r := ChannelExports(channels, item).value;
              var rec := Exported(item).value;
              forall k :: 0 <= k < |channels| ==>
                && r[k].Keys == rec.Keys + {ChannelKey}
                && r[k][ChannelKey] == Text(channels[k])
                && forall key :: key in rec && key != ChannelKey ==> r[k][key] == rec[key]
  {
  }

  /** The export loop of `publish` and `publishAsync`: it exports the item once per channel. */
  method BuildExports(channels: seq<string>, item: Item) returns (r: Result<seq<Record>, ExportError>)
    ensures r == ChannelExports(channels, item)
  {
    var exports: seq<Record> := [];
    for i := 0 to |channels|
      invariant i == 0 ==> exports == []
      invariant i > 0 ==> Exported(item).Success? && exports == Stamped(Exported(item).value, channels[..i])
    {
      var rec := Export(item);
      if rec.Failure? {
        return Failure(rec.error);
      }
      StampedNext(rec.value, channels, i);
      exports := exports + [WithChannel(rec.value, channels[i])];
    }
    assert channels[..|channels|] == channels;
    return Success(exports);
  }

  /** Sending one more batch keeps each call the one its batch makes. */
  lemma CallsNext(uri: Option<string>, batches: seq<seq<PubRequest>>, calls: seq<TransportCall>,
                  batch: seq<PubRequest>, call: TransportCall)
    requires |calls| == |batches| && forall k :: 0 <= k < |batches| ==> BatchCall(uri, batches[k]) == Some(calls[k])
    requires BatchCall(uri, batch) == Some(call)
    ensures forall k :: 0 <= k < |batches| + 1 ==> BatchCall(uri, (batches + [batch])[k]) == Some((calls + [call])[k])
  {
  }

  /** Completions delivered in two runs reach a handler as one run. */
  lemma DeliveredChain(t: Tally, before: seq<Completion>, cs: seq<Completion>, h: PccCallbackHandler)
    ensures CompleteAll(CompleteAll(t, DeliveredTo(before, h)), DeliveredTo(cs, h)) == CompleteAll(t, DeliveredTo(before + cs, h))
  {
    DeliveredToAppend(before, cs, h);
    CompleteAllAppend(t, DeliveredTo(before, h), DeliveredTo(cs, h));
  }

  /** Why a synchronous publish raised: the item could not be exported, or the transport call threw. */
  datatype PublishError = ExportFailed(cause: ExportError) | TransportFailed(message: Option<string>)

  class PubControlClient {
    /** The endpoint; it is set by the constructor and never reassigned. */
    const uri: Option<string>
    var authBasicUser: Option<string>
    var authBasicPass: Option<string>
    var authJwtClaim: Option<Claims>
    var authJwtKey: Key
    /** `pubWorker != null`. */
    var workerRunning: bool
    var reqQueue: seq<Req>
    /** How many worker threads have been started. */
    ghost var workersStarted: nat

    /**
     * Only publish requests wait in the queue between calls, and nothing
     * waits when no worker is running.
     */
    ghost predicate Valid()
      reads this`reqQueue, this`workerRunning
    {
      Stop !in reqQueue && (!workerRunning ==> reqQueue == [])
    }

    function Creds(): Credentials
      reads this`authBasicUser, this`authBasicPass, this`authJwtClaim, this`authJwtKey
    {
      Credentials(authBasicUser, authBasicPass, authJwtClaim, authJwtKey)
    }

    /** `genAuthHeader` on the current credentials. */
    function GenAuthHeader(env: Environment): Option<string>
      reads this`authBasicUser, this`authBasicPass, this`authJwtClaim, this`authJwtKey
    {
      AuthHeader(Creds(), env)
    }

    constructor (uri: Option<string>)
      ensures this.uri == uri && Creds() == NoCredentials()
      ensures !workerRunning && reqQueue == [] && workersStarted == 0
      ensures Valid()
    {
      this.uri := uri;
      authBasicUser := None;
      authBasicPass := None;
      authJwtClaim := None;
      authJwtKey := [];
      workerRunning := false;
      reqQueue := [];
      workersStarted := 0;
    }

    /** `setAuthBasic`: replaces the basic credentials and nothing else. */
    method SetAuthBasic(userName: Option<string>, password: Option<string>)
      modifies this`authBasicUser, this`authBasicPass
      ensures Creds() == old(Creds()).(basicUser := userName, basicPass := password)
    {
      authBasicUser := userName;
      authBasicPass := password;
    }

    /** `setAuthJwt`: replaces the JWT claims and key and nothing else. */
    method SetAuthJwt(claims: Option<Claims>, key: Key)
      modifies this`authJwtClaim, this`authJwtKey
      ensures Creds() == old(Creds()).(jwtClaim := claims, jwtKey := key)
    {
      authJwtClaim := claims;
      authJwtKey := key;
    }

    /**
     * `publish`: exports the item for every channel, then makes one transport
     * call to the endpoint with the current header and all exports. An
     * export error is raised before any call is made; an exception from the
     * transport call is raised to the caller after the call was made.
     */
    method Publish(channels: seq<string>, item: Item, outcome: TransportOutcome, env: Environment)
      returns (call: Option<TransportCall>, err: Option<PublishError>)
      ensures call.Some? <==> ChannelExports(channels, item).Success?
      ensures call.Some? ==> call.value == TransportCall(uri, GenAuthHeader(env), ChannelExports(channels, item).value)
      ensures ChannelExports(channels, item).Failure? ==> err == Some(ExportFailed(ChannelExports(channels, item).error))
      ensures ChannelExports(channels, item).Success? ==>
                && (err.Some? <==> outcome.Raised?)
                && (outcome.Raised? ==> err == Some(TransportFailed(outcome.message)))
    {
      var exports := BuildExports(channels, item);
      if exports.Failure? {
        return None, Some(ExportFailed(exports.error));
      }
      var uri := this.uri;
      var auth := GenAuthHeader(env);
      call := Some(TransportCall(uri, auth, exports.value));
      err := if outcome.Raised? then Some(TransportFailed(outcome.message)) else None;
    }

    /** `ensureThread`: starts a worker only when none is running. */
    method EnsureThread()
      modifies this`workerRunning, this`workersStarted
      ensures workerRunning
      ensures workersStarted == old(workersStarted) + if old(workerRunning) then 0 else 1
    {
      if !workerRunning {
        workerRunning := true;
        workersStarted := workersStarted + 1;
      }
    }

    /** `queueReq`: appends at the tail of the queue. */
    method QueueReq(req: Req)
      modifies this`reqQueue
      ensures reqQueue == old(reqQueue) + [req]
    {
      reqQueue := reqQueue + [req];
    }

    /**
     * `publishAsync`: exports the item for every channel; on an export
     * error nothing changes. Otherwise a worker is running afterwards and
     * one publish request, carrying the uri and header of this moment, the
     * exports and the callback, is appended to the queue.
     */
    method PublishAsync(channels: seq<string>, item: Item, callback: Option<Callback>, env: Environment)
      returns (err: Option<ExportError>)
      requires Valid()
      modifies this`workerRunning, this`workersStarted, this`reqQueue
      ensures Valid()
      ensures err.Some? <==> ChannelExports(channels, item).Failure?
      ensures err.Some? ==> err.value == ChannelExports(channels, item).error
      ensures err.Some? ==> workerRunning == old(workerRunning) && reqQueue == old(reqQueue)
                            && workersStarted == old(workersStarted)
      ensures err.None? ==>
                && workerRunning
                && workersStarted == old(workersStarted) + (if old(workerRunning) then 0 else 1)
                && reqQueue == old(reqQueue)
                   + [Req.Publish(PubRequest(uri, GenAuthHeader(env), ChannelExports(channels, item).value, callback))]
    {
      var exports := BuildExports(channels, item);
      if exports.Failure? {
        return Some(exports.error);
      }
      var uri := this.uri;
      var auth := GenAuthHeader(env);
      EnsureThread();
      QueueReq(Req.Publish(PubRequest(uri, auth, exports.value, callback)));
      return None;
    }

    /**
     * The inner loop of `run`: takes requests from the head while fewer than
     * ten are taken, and on a stop request ends the batch and sets `quit`.
     */
    method DrainBatch() returns (reqs: seq<PubRequest>, quit: bool)
      modifies this`reqQueue
      ensures Drain(old(reqQueue)) == Drained(reqs, quit, reqQueue)
    {
      reqs, quit := [], false;
      var q := reqQueue;
      DrainIsContinue(q);
      while |q| > 0 && |reqs| < BatchLimit
        invariant |reqs| <= BatchLimit
        invariant Drain(old(reqQueue)) == Continue(reqs, q, BatchLimit - |reqs|)
        decreases |q|
      {
        var m := q[0];
        q := q[1..];
        if m.Stop? {
          quit := true;
          break;
        }
        reqs := reqs + [m.request];
      }
      reqQueue := q;
    }

    /**
     * `pubBatch`: for a non-empty batch, one transport call to the client's
     * uri with the first request's header and every request's exports in
     * order; then every non-null callback is completed with the result
     * `true` and the message of the raised exception, if any.
     */
    method PubBatch(reqs: seq<PubRequest>, outcome: TransportOutcome)
      returns (call: Option<TransportCall>, completions: seq<Completion>)
      ensures call == BatchCall(uri, reqs)
      ensures completions == BatchCompletions(reqs, outcome)
    {
      if |reqs| == 0 {
        return None, [];
      }
      var authHeader := reqs[0].auth;
      var items: seq<Record> := [];
      var callbacks: seq<Option<Callback>> := [];
      for i := 0 to |reqs|
        invariant items == ItemsOf(reqs[..i])
        invariant |callbacks| == i && forall k :: 0 <= k < i ==> callbacks[k] == reqs[k].callback
      {
        assert reqs[..i + 1][..i] == reqs[..i];
        items := items + reqs[i].exports;
        callbacks := callbacks + [reqs[i].callback];
      }
      assert reqs[..|reqs|] == reqs;
      var result := true;
      var message := if outcome.Raised? then outcome.message else None;
      call := Some(TransportCall(uri, authHeader, items));
      completions := [];
      for i := 0 to |callbacks|
        invariant completions == BatchCompletions(reqs[..i], outcome)
      {
        assert reqs[..i + 1][..i] == reqs[..i];
        if callbacks[i].Some? {
          completions := completions + [Completion(callbacks[i].value, Outcome(result, message))];
        }
      }
    }

    /**
     * One pass of the worker's loop: drain a batch, publish it if it is not
     * empty, and deliver the completions. Each handler of the queue advances
     * by exactly the outcomes addressed to it.
     */
    method WorkerStep(outcome: TransportOutcome, ghost watched: set<PccCallbackHandler>)
      returns (batch: seq<PubRequest>, quit: bool, call: Option<TransportCall>, completions: seq<Completion>)
      modifies this`reqQueue, HandlersIn(reqQueue)
      ensures Drain(old(reqQueue)) == Drained(batch, quit, reqQueue)
      ensures call == BatchCall(uri, batch)
      ensures completions == BatchCompletions(batch, outcome)
      ensures HandlersIn(reqQueue) <= old(HandlersIn(reqQueue))
      ensures HandlersOf(completions) <= old(HandlersIn(reqQueue))
      ensures forall h :: h in watched ==>
                h.State() == CompleteAll(old(h.State()), DeliveredTo(completions, h))
    {
      ghost var q := reqQueue;
      batch, quit := DrainBatch();
      DrainHandlers(q, outcome);
      call, completions := None, [];
      if |batch| > 0 {
        call, completions := PubBatch(batch, outcome);
      }
      Dispatch(completions);
      forall h | h in watched && h !in HandlersOf(completions)
        ensures DeliveredTo(completions, h) == []
      {
        DeliveredToNone(completions, h);
      }
    }

    /**
     * The worker's loop from the moment a stop request stands behind the
     * publish requests `rest`: drain steps run until the stop request is
     * taken, the `k`-th batch sent with outcome `outcomeOf(k)`.
     */
    method RunToStop(ghost rest: seq<PubRequest>, outcomeOf: nat -> TransportOutcome)
      returns (batches: seq<seq<PubRequest>>, calls: seq<TransportCall>, completions: seq<Completion>)
      requires reqQueue == Queued(rest) + [Stop]
      modifies this`reqQueue, HandlersIn(reqQueue)
      ensures reqQueue == []
      ensures batches == Chunks(rest)
      ensures |calls| == |batches|
      ensures forall k :: 0 <= k < |batches| ==> BatchCall(uri, batches[k]) == Some(calls[k])
      ensures completions == RunCompletions(batches, outcomeOf)
      ensures HandlersOf(completions) <= old(HandlersIn(reqQueue))
      ensures forall h :: h in old(HandlersIn(reqQueue)) ==>
                h.State() == CompleteAll(old(h.State()), DeliveredTo(completions, h))
    {
      batches, calls, completions := [], [], [];
      ghost var handlers := HandlersIn(reqQueue);
      ghost var left := rest;
      var quit := false;
      while !quit
        invariant !quit ==> reqQueue == Queued(left) + [Stop] && batches + Chunks(left) == Chunks(rest)
        invariant quit ==> reqQueue == [] && batches == Chunks(rest)
        invariant HandlersIn(reqQueue) <= handlers
        invariant |calls| == |batches|
        invariant forall k :: 0 <= k < |batches| ==> BatchCall(uri, batches[k]) == Some(calls[k])
        invariant completions == RunCompletions(batches, outcomeOf)
        invariant HandlersOf(completions) <= handlers
        invariant forall h :: h in handlers ==>
                    h.State() == CompleteAll(old(h.State()), DeliveredTo(completions, h))
        decreases if quit then 0 else |left| + 1
      {
        DrainBeforeStop(left);
        ChunksStep(batches, left, rest);
        ghost var before := completions;
        var batch, q, call, cs := WorkerStep(outcomeOf(|batches|), handlers);
        if |batch| > 0 {
          RunCompletionsSnoc(batches, batch, outcomeOf);
          CallsNext(uri, batches, calls, batch, call.value);
          batches := batches + [batch];
          calls := calls + [call.value];
          completions := completions + cs;
        }
        assert completions == before + cs;
        HandlersOfAppend(before, cs);
        forall h | h in handlers
          ensures h.State() == CompleteAll(old(h.State()), DeliveredTo(completions, h))
        {
          DeliveredChain(old(h.State()), before, cs, h);
        }
        quit := q;
        if !quit {
          left := left[BatchLimit..];
        }
      }
    }

    /**
     * `finish`: when a worker is running, queues a stop request and waits
     * until the worker has sent every pending request, in batches of ten
     * and a remainder, the `k`-th batch with transport outcome
     * `outcomeOf(k)`; afterwards no worker runs and the queue is empty.
     * Every handler of the queue ends up having received exactly the
     * outcomes addressed to it, in order.
     */
    method Finish(outcomeOf: nat -> TransportOutcome)
      returns (batches: seq<seq<PubRequest>>, calls: seq<TransportCall>, completions: seq<Completion>)
      requires Valid()
      modifies this`workerRunning, this`reqQueue, HandlersIn(reqQueue)
      ensures Valid() && !workerRunning && reqQueue == []
      ensures batches == Chunks(Pending(old(reqQueue)))
      ensures |calls| == |batches|
      ensures forall k :: 0 <= k < |batches| ==> BatchCall(uri, batches[k]) == Some(calls[k])
      ensures completions == RunCompletions(batches, outcomeOf)
      ensures HandlersOf(completions) <= old(HandlersIn(reqQueue))
      ensures forall h :: h in old(HandlersIn(reqQueue)) ==>
                h.State() == CompleteAll(old(h.State()), DeliveredTo(completions, h))
    {
      if !workerRunning {
        return [], [], [];
      }
      ghost var ps := Pending(reqQueue);
      HandlersInStop(reqQueue);
      QueueReq(Stop);
      batches, calls, completions := RunToStop(ps, outcomeOf);
      workerRunning := false;
    }
  }
}
