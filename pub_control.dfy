/**
 * PubControl: a list of PubControlClient instances, built from
 * configuration entries or added by hand, to which every publish and finish
 * is fanned out in list order. An asynchronous publish with a callback
 * shares one PccCallbackHandler, counting one completion per client, among
 * all clients.
 */
module Control {
  import opened Wrappers
  import opened Values
  import opened Items
  import opened Callbacks
  import opened Auth
  import opened Requests
  import opened Client

  const IssClaim: string := "iss"

  /** One configuration entry: its `uri`, `iss` and `key` values, `None` when absent or null. */
  datatype ConfigEntry = ConfigEntry(uri: Option<string>, iss: Option<string>, key: Option<Key>)

  /**
   * The credentials a configured client starts with: JWT credentials whose
   * only claim is `iss`, when the entry holds both an issuer and a key, and
   * none otherwise.
   */
  function EntryCredentials(e: ConfigEntry): (c: Credentials)
    ensures !HasBasic(c)
    ensures c.jwtClaim.Some? <==> e.iss.Some? && e.key.Some?
    ensures c.jwtClaim.Some? ==> c.jwtClaim.value == map[IssClaim := Text(e.iss.value)] && c.jwtKey == e.key.value
    ensures c.jwtClaim.None? ==> c == NoCredentials()
  {
    if e.iss.Some? && e.key.Some? then
      NoCredentials().(jwtClaim := Some(map[IssClaim := Text(e.iss.value)]), jwtKey := e.key.value)
    else
      NoCredentials()
  }

  /**
   * A configured client sends no header unless its entry held both an
   * issuer and a key; then it sends `Bearer` and a token signing exactly
   * `iss` and an expiry one hour after the current time.
   */
  lemma ConfiguredHeader(e: ConfigEntry, env: Environment)
    ensures e.iss.None? || e.key.None? ==> AuthHeader(EntryCredentials(e), env) == None
    ensures e.iss.Some? && e.key.Some? ==>
              AuthHeader(EntryCredentials(e), env)
              == Some(BearerPrefix + env.signHs256(
                        map[IssClaim := Text(e.iss.value), ExpClaim := Date(env.nowMillis + TokenLifetimeMillis)],
                        e.key.value))
  {
  }

  /** A client in the state `applyConfig` leaves it: the entry's uri and credentials, idle. */
  ghost predicate ConfiguredAs(c: PubControlClient, e: ConfigEntry)
    reads c
  {
    c.uri == e.uri && c.Creds() == EntryCredentials(e) && !c.workerRunning && c.reqQueue == [] && c.Valid()
  }

  /** The clients are, position by position, in the state `applyConfig` leaves for the entries. */
  ghost predicate ConfiguredAll(cs: seq<PubControlClient>, config: seq<ConfigEntry>)
    reads set c | c in cs
  {
    |cs| == |config| && forall k :: 0 <= k < |cs| ==> ConfiguredAs(cs[k], config[k])
  }

  /** Appending the client built for entry `i` extends the configured suffix by one. */
  lemma ConfiguredAllSnoc(cs: seq<PubControlClient>, n: nat, config: seq<ConfigEntry>, i: nat, c: PubControlClient)
    requires n <= |cs| && i < |config| && ConfiguredAll(cs[n..], config[..i]) && ConfiguredAs(c, config[i])
    ensures ConfiguredAll((cs + [c])[n..], config[..i + 1])
  {
    assert (cs + [c])[n..] == cs[n..] + [c];
    assert config[..i + 1] == config[..i] + [config[i]];
  }

  /** Appending a client not yet listed keeps the clients from position `n` on pairwise distinct. */
  lemma DistinctSnoc(cs: seq<PubControlClient>, n: nat, c: PubControlClient)
    requires n <= |cs| && c !in cs
    requires forall a, b :: n <= a < b < |cs| ==> cs[a] != cs[b]
    ensures forall a, b :: n <= a < b < |cs| + 1 ==> (cs + [c])[a] != (cs + [c])[b]
  {
  }

  /**
   * The calls a client's worker makes when it sends queue `q` to `uri`:
   * one per chunk of the pending requests, in order, each with the first
   * request's header and all the chunk's exports.
   */
  predicate SentAs(calls: seq<TransportCall>, uri: Option<string>, q: seq<Req>) {
    var batches := Chunks(Pending(q));
    |calls| == |batches| && forall k :: 0 <= k < |batches| ==> BatchCall(uri, batches[k]) == Some(calls[k])
  }

  /** The first `|sent|` clients of `cs` have sent their queues `qs` as `sent` says. */
  predicate AllSent(sent: seq<seq<TransportCall>>, cs: seq<PubControlClient>, qs: seq<seq<Req>>) {
    |sent| <= |cs| && |qs| == |cs| && forall j :: 0 <= j < |sent| ==> SentAs(sent[j], cs[j].uri, qs[j])
  }

  lemma SentNext(sent: seq<seq<TransportCall>>, calls: seq<TransportCall>, cs: seq<PubControlClient>, qs: seq<seq<Req>>)
    requires AllSent(sent, cs, qs) && |sent| < |cs|
    requires SentAs(calls, cs[|sent|].uri, qs[|sent|])
    ensures AllSent(sent + [calls], cs, qs)
  {
  }

  /** `n` copies of `r`. */
  function Copies(r: Req, n: nat): (q: seq<Req>)
    ensures |q| == n && forall k :: 0 <= k < n ==> q[k] == r
  {
    seq(n, _ => r)
  }

  /** Completion lists laid end to end. */
  function Concat(css: seq<seq<Completion>>): seq<Completion> {
    if css == [] then [] else Concat(css[..|css| - 1]) + css[|css| - 1]
  }

  /** How often `c` is listed before position `i`. */
  function Occurrences(cs: seq<PubControlClient>, c: PubControlClient, i: nat): nat
    requires i <= |cs|
  {
    if i == 0 then 0 else Occurrences(cs, c, i - 1) + if cs[i - 1] == c then 1 else 0
  }

  lemma {:induction false} OccurrencesCount(cs: seq<PubControlClient>, c: PubControlClient, i: nat)
    requires i <= |cs|
    ensures Occurrences(cs, c, i) == multiset(cs[..i])[c]
  {
    if i > 0 {
      OccurrencesCount(cs, c, i - 1);
      assert cs[..i] == cs[..i - 1] + [cs[i - 1]];
    }
  }

  lemma CopiesNext(r: Req, n: nat)
    ensures Copies(r, n + 1) == Copies(r, n) + [r]
  {
  }

  /** The publish request a client with this uri and these credentials queues. */
  function RequestFor(uri: Option<string>, creds: Credentials, exports: seq<Record>, cb: Option<Callback>, env: Environment): Req {
    Req.Publish(PubRequest(uri, AuthHeader(creds, env), exports, cb))
  }

  /**
   * The queues finishing meets, client by client: a client listed earlier
   * has already been finished and its later listing meets an empty queue.
   */
  function FirstListings(cs: seq<PubControlClient>, qs: seq<seq<Req>>): (fs: seq<seq<Req>>)
    requires |cs| == |qs|
    ensures |fs| == |qs|
    ensures forall j :: 0 <= j < |qs| ==> fs[j] == if cs[j] in cs[..j] then [] else qs[j]
  {
    seq(|qs|, j requires 0 <= j < |qs| => if cs[j] in cs[..j] then [] else qs[j])
  }

  /** The completions each queue yields when finished, the `j`-th with outcomes `outcomeOf(j)`. */
  function Runs(qs: seq<seq<Req>>, outcomeOf: nat -> nat -> TransportOutcome): (rs: seq<seq<Completion>>)
    ensures |rs| == |qs|
  {
    if qs == [] then []
    else Runs(qs[..|qs| - 1], outcomeOf) + [RunCompletions(Chunks(Pending(qs[|qs| - 1])), outcomeOf(|qs| - 1))]
  }

  lemma RunsSnoc(qs: seq<seq<Req>>, i: nat, outcomeOf: nat -> nat -> TransportOutcome)
    requires i < |qs|
    ensures Runs(qs[..i + 1], outcomeOf) == Runs(qs[..i], outcomeOf) + [RunCompletions(Chunks(Pending(qs[i])), outcomeOf(i))]
  {
    assert qs[..i + 1][..i] == qs[..i];
  }

  lemma ListedNext(cs: seq<PubControlClient>, i: nat)
    requires i < |cs|
    ensures forall c :: c in cs[..i + 1] <==> c in cs[..i] || c == cs[i]
  {
    assert cs[..i + 1] == cs[..i] + [cs[i]];
  }

  lemma TakeAll(qs: seq<seq<Req>>)
    ensures qs[..|qs|] == qs
  {
  }

  lemma ConcatSnoc(css: seq<seq<Completion>>, cs: seq<Completion>)
    ensures Concat(css + [cs]) == Concat(css) + cs
  {
    assert (css + [cs])[..|css|] == css;
  }

  class PubControl {
    var clients: seq<PubControlClient>

    ghost predicate Valid()
      reads this, clients
    {
      forall c :: c in clients ==> c.Valid()
    }

    /** The queues of the clients, in list order. */
    ghost function Queues(): (qs: seq<seq<Req>>)
      reads this, clients
      ensures |qs| == |clients| && forall j :: 0 <= j < |clients| ==> qs[j] == clients[j].reqQueue
    {
      seq(|clients|, j requires 0 <= j < |clients| reads this, clients => clients[j].reqQueue)
    }

    /** Whether each client runs a worker, in list order. */
    ghost function Running(): (ws: seq<bool>)
      reads this, clients
      ensures |ws| == |clients| && forall j :: 0 <= j < |clients| ==> ws[j] == clients[j].workerRunning
    {
      seq(|clients|, j requires 0 <= j < |clients| reads this, clients => clients[j].workerRunning)
    }

    /** The handlers waiting in the queues of the clients. */
    ghost function PendingHandlers(): set<PccCallbackHandler>
      reads this, clients
    {
      set c, h | c in clients && h in HandlersIn(c.reqQueue) :: h
    }

    /** `PubControl(config)`: no clients, then the configuration when there is one. */
    constructor (config: Option<seq<ConfigEntry>>)
      ensures Valid()
      ensures config.None? ==> clients == []
      ensures config.Some? ==>
                && (forall k :: 0 <= k < |clients| ==> fresh(clients[k]))
                && (forall a, b :: 0 <= a < b < |clients| ==> clients[a] != clients[b])
                && ConfiguredAll(clients, config.value)
    {
      clients := [];
      new;
      if config.Some? {
        ApplyConfig(config.value);
        assert clients[0..] == clients;
      }
    }

    /** `removeAllClients`. */
    method RemoveAllClients()
      modifies this`clients
      ensures clients == [] && Valid()
    {
      clients := [];
    }

    /** `addClient`: appends the client, which may already be in the list. */
    method AddClient(client: PubControlClient)
      requires Valid() && client.Valid()
      modifies this`clients
      ensures clients == old(clients) + [client] && Valid()
    {
      clients := clients + [client];
    }

    /**
     * `applyConfig`: appends one new client per entry, in entry order, with
     * the entry's uri and, when the entry holds both an issuer and a key,
     * JWT credentials for them; the clients already present stay.
     */
    method ApplyConfig(config: seq<ConfigEntry>)
      requires Valid()
      modifies this`clients
      ensures Valid()
      ensures |clients| == |old(clients)| + |config| && clients[..|old(clients)|] == old(clients)
      ensures forall j :: |old(clients)| <= j < |clients| ==> fresh(clients[j])
      ensures forall a, b :: |old(clients)| <= a < b < |clients| ==> clients[a] != clients[b]
      ensures ConfiguredAll(clients[|old(clients)|..], config)
    {
      ghost var n := |clients|;
      for i := 0 to |config|
        invariant Valid()
        invariant |clients| == n + i && clients[..n] == old(clients)
        invariant forall j :: n <= j < |clients| ==> fresh(clients[j])
        invariant forall a, b :: n <= a < b < |clients| ==> clients[a] != clients[b]
        invariant ConfiguredAll(clients[n..], config[..i])
      {
        var client := NewConfigured(config[i]);
        ConfiguredAllSnoc(clients, n, config, i, client);
        DistinctSnoc(clients, n, client);
        clients := clients + [client];
      }
      assert config[..|config|] == config;
    }

    /** The client `applyConfig` builds for one entry. */
    static method NewConfigured(entry: ConfigEntry) returns (client: PubControlClient)
      ensures fresh(client) && ConfiguredAs(client, entry)
    {
      var uri: Option<string> := None;
      if entry.uri.Some? {
        uri := entry.uri;
      }
      client := new PubControlClient(uri);
      if entry.iss.Some? && entry.key.Some? {
        var claims := map[IssClaim := Text(entry.iss.value)];
        client.SetAuthJwt(Some(claims), entry.key.value);
      }
    }

    /**
     * `publish`: each client in turn makes its transport call, client `k`'s
     * call meeting `outcomeOf(k)`. The first exception ends the loop, so the
     * clients after it make no call. An item that cannot be exported fails
     * at the first client, before any call; with no clients nothing is
     * exported and nothing fails.
     */
    method Publish(channels: seq<string>, item: Item, outcomeOf: nat -> TransportOutcome, env: Environment)
      returns (calls: seq<TransportCall>, err: Option<PublishError>)
      ensures |calls| <= |clients|
      ensures calls != [] ==> ChannelExports(channels, item).Success?
      ensures forall k :: 0 <= k < |calls| ==>
                calls[k] == TransportCall(clients[k].uri, clients[k].GenAuthHeader(env), ChannelExports(channels, item).value)
      ensures clients != [] && ChannelExports(channels, item).Failure? ==>
                calls == [] && err == Some(ExportFailed(ChannelExports(channels, item).error))
      ensures err.None? <==>
                (clients == [] || ChannelExports(channels, item).Success?)
                && forall k :: 0 <= k < |clients| ==> !outcomeOf(k).Raised?
      ensures err.None? ==> |calls| == |clients|
      ensures ChannelExports(channels, item).Success? && err.Some? ==> err.value.TransportFailed?
      ensures err.Some? && err.value.TransportFailed? ==>
                && calls != []
                && outcomeOf(|calls| - 1).Raised?
                && err.value.message == outcomeOf(|calls| - 1).message
                && forall k :: 0 <= k < |calls| - 1 ==> !outcomeOf(k).Raised?
    {
      calls := [];
      for i := 0 to |clients|
        invariant |calls| == i
        invariant i > 0 ==> ChannelExports(channels, item).Success?
        invariant forall k :: 0 <= k < i ==>
                    calls[k] == TransportCall(clients[k].uri, clients[k].GenAuthHeader(env), ChannelExports(channels, item).value)
        invariant forall k :: 0 <= k < i ==> !outcomeOf(k).Raised?
      {
        var call, e := clients[i].Publish(channels, item, outcomeOf(i), env);
        if call.Some? {
          calls := calls + [call.value];
        }
        if e.Some? {
          return calls, e;
        }
      }
      err := None;
    }

    /**
     * `publishAsync`: with a callback, one handler counting one completion
     * per listed client is shared by all requests. Each client in turn
     * queues the request and starts its worker; a client listed several
     * times queues one request per listing. An item that cannot be exported
     * fails at the first client, before anything is queued.
     */
    method PublishAsync(channels: seq<string>, item: Item, callback: Option<nat>, env: Environment)
      returns (cb: Option<Callback>, err: Option<ExportError>)
      requires Valid()
      modifies clients`reqQueue, clients`workerRunning, clients`workersStarted
      ensures Valid()
      ensures callback.None? ==> cb.None?
      ensures callback.Some? ==>
                && cb.Some? && cb.value.Joined? && fresh(cb.value.handler)
                && cb.value.handler.State() == Start(|clients|) && cb.value.handler.callback == callback.value
      ensures err.Some? <==> clients != [] && ChannelExports(channels, item).Failure?
      ensures err.Some? ==> err.value == ChannelExports(channels, item).error
      ensures err.Some? ==> forall j :: 0 <= j < |clients| ==>
                clients[j].reqQueue == old(clients[j].reqQueue) && clients[j].workerRunning == old(clients[j].workerRunning)
      ensures err.None? ==> forall j :: 0 <= j < |clients| ==>
                && clients[j].workerRunning
                && clients[j].reqQueue == old(clients[j].reqQueue)
                   + Copies(RequestFor(clients[j].uri, clients[j].Creds(), ChannelExports(channels, item).value, cb, env),
                            multiset(clients)[clients[j]])
    {
      cb := NewCallback(|clients|, callback, clients);
      err := FanOut(channels, item, cb, env);
    }

    /** The fan-out of `publishAsync` once the callback is built. */
    method FanOut(channels: seq<string>, item: Item, cb: Option<Callback>, env: Environment)
      returns (err: Option<ExportError>)
      requires Valid()
      modifies clients`reqQueue, clients`workerRunning, clients`workersStarted
      ensures Valid()
      ensures err.Some? <==> clients != [] && ChannelExports(channels, item).Failure?
      ensures err.Some? ==> err.value == ChannelExports(channels, item).error
      ensures err.Some? ==> forall j :: 0 <= j < |clients| ==>
                clients[j].reqQueue == old(clients[j].reqQueue) && clients[j].workerRunning == old(clients[j].workerRunning)
      ensures err.None? ==> forall j :: 0 <= j < |clients| ==>
                && clients[j].workerRunning
                && clients[j].reqQueue == old(clients[j].reqQueue)
                   + Copies(RequestFor(clients[j].uri, clients[j].Creds(), ChannelExports(channels, item).value, cb, env),
                            multiset(clients)[clients[j]])
    {
      ghost var q0 := Queues();
      ghost var w0 := Running();
      ghost var exports := if ChannelExports(channels, item).Success? then ChannelExports(channels, item).value else [];
      PublishingStarts(q0, w0, exports, cb, env);
      err := PublishEach(channels, item, cb, env, q0, w0, exports);
      Published(q0, w0, channels, item, exports, cb, env, err.Some?);
    }

    /** The callback the requests of one `publishAsync` carry: a fresh handler counting `n` completions, when there is a user callback. */
    static method NewCallback(n: nat, callback: Option<nat>, others: seq<object>) returns (cb: Option<Callback>)
      ensures cb.Some? && cb.value.Joined? ==> cb.value.handler !in others
      ensures callback.None? ==> cb.None?
      ensures callback.Some? ==>
                && cb.Some? && cb.value.Joined? && fresh(cb.value.handler)
                && cb.value.handler.State() == Start(n) && cb.value.handler.callback == callback.value
    {
      cb := None;
      if callback.Some? {
        var handler := new PccCallbackHandler(n, callback.value);
        cb := Some(Joined(handler));
      }
    }

    /** The fan-out loop of `publishAsync`, from the snapshot `q0`, `w0` of the queues and workers. */
    method PublishEach(channels: seq<string>, item: Item, cb: Option<Callback>, env: Environment,
                       ghost q0: seq<seq<Req>>, ghost w0: seq<bool>, ghost exports: seq<Record>)
      returns (err: Option<ExportError>)
      requires PublishedUpTo(0, q0, w0, exports, cb, env)
      requires ChannelExports(channels, item).Success? ==> exports == ChannelExports(channels, item).value
      modifies clients`reqQueue, clients`workerRunning, clients`workersStarted
      ensures err.Some? <==> clients != [] && ChannelExports(channels, item).Failure?
      ensures err.Some? ==> err.value == ChannelExports(channels, item).error
      ensures err.Some? ==> PublishedUpTo(0, q0, w0, exports, cb, env)
      ensures err.None? ==> PublishedUpTo(|clients|, q0, w0, exports, cb, env)
    {
      err := None;
      for i := 0 to |clients|
        invariant err.None? && (i > 0 ==> ChannelExports(channels, item).Success?)
        invariant PublishedUpTo(i, q0, w0, exports, cb, env)
      {
        err := PublishAt(clients[i], i, channels, item, cb, env, q0, w0, exports);
        if err.Some? {
          assert i == 0;
          return;
        }
      }
    }

    /**
     * Every client is valid and has queued one request per time it is
     * listed before position `i` behind its queue of `q0`, and runs a
     * worker if it did in `w0` or has queued one.
     */
    ghost predicate PublishedUpTo(i: nat, q0: seq<seq<Req>>, w0: seq<bool>, exports: seq<Record>, cb: Option<Callback>, env: Environment)
      reads this, clients
    {
      && i <= |clients| && |q0| == |clients| && |w0| == |clients|
      && forall j :: 0 <= j < |clients| ==>
           && clients[j].Valid()
           && clients[j].reqQueue == q0[j] + Copies(RequestFor(clients[j].uri, clients[j].Creds(), exports, cb, env), Occurrences(clients, clients[j], i))
           && clients[j].workerRunning == (w0[j] || Occurrences(clients, clients[j], i) > 0)
    }

    /** Before the first client, every client holds its snapshot queue and worker flag. */
    lemma PublishingStarts(q0: seq<seq<Req>>, w0: seq<bool>, exports: seq<Record>, cb: Option<Callback>, env: Environment)
      requires Valid() && q0 == Queues() && w0 == Running()
      ensures PublishedUpTo(0, q0, w0, exports, cb, env)
    {
      forall j | 0 <= j < |clients|
        ensures clients[j].Valid() && q0[j] + Copies(RequestFor(clients[j].uri, clients[j].Creds(), exports, cb, env), 0) == q0[j]
      {
        assert clients[j] in clients;
      }
    }

    /**
     * What the fan-out leaves: after a failure at the first client nothing
     * has changed; after the last client each client has queued one request
     * per time it is listed and runs a worker.
     */
    twostate lemma Published(new q0: seq<seq<Req>>, new w0: seq<bool>, new channels: seq<string>, new item: Item,
                             new exports: seq<Record>, new cb: Option<Callback>, new env: Environment, failed: bool)
      requires clients == old(clients) && q0 == old(Queues()) && w0 == old(Running())
      requires ChannelExports(channels, item).Success? ==> exports == ChannelExports(channels, item).value
      requires !failed && clients != [] ==> ChannelExports(channels, item).Success?
      requires PublishedUpTo(if failed then 0 else |clients|, q0, w0, exports, cb, env)
      ensures Valid()
      ensures failed ==> forall j :: 0 <= j < |clients| ==>
                clients[j].reqQueue == old(clients[j].reqQueue) && clients[j].workerRunning == old(clients[j].workerRunning)
      ensures !failed ==> forall j :: 0 <= j < |clients| ==>
                && clients[j].workerRunning
                && clients[j].reqQueue == old(clients[j].reqQueue)
                   + Copies(RequestFor(clients[j].uri, clients[j].Creds(), ChannelExports(channels, item).value, cb, env),
                            multiset(clients)[clients[j]])
    {
      if !failed {
        forall j | 0 <= j < |clients|
          ensures Occurrences(clients, clients[j], |clients|) == multiset(clients)[clients[j]]
        {
          OccurrencesCount(clients, clients[j], |clients|);
          assert clients[..|clients|] == clients;
        }
      }
    }

    /** The call of `publishAsync` on the client at position `i`. */
    method PublishAt(client: PubControlClient, i: nat, channels: seq<string>, item: Item, cb: Option<Callback>, env: Environment,
                     ghost q0: seq<seq<Req>>, ghost w0: seq<bool>, ghost exports: seq<Record>)
      returns (err: Option<ExportError>)
      requires i < |clients| && client == clients[i] && PublishedUpTo(i, q0, w0, exports, cb, env)
      requires ChannelExports(channels, item).Success? ==> exports == ChannelExports(channels, item).value
      modifies client`reqQueue, client`workerRunning, client`workersStarted
      ensures err.Some? <==> ChannelExports(channels, item).Failure?
      ensures err.Some? ==> err.value == ChannelExports(channels, item).error
      ensures err.Some? ==> unchanged(client)
      ensures err.None? ==> PublishedUpTo(i + 1, q0, w0, exports, cb, env)
    {
      err := client.PublishAsync(channels, item, cb, env);
      if err.None? {
        forall j | 0 <= j < |clients| && clients[j] == client
          ensures clients[j].reqQueue == q0[j] + Copies(RequestFor(clients[j].uri, clients[j].Creds(), exports, cb, env), Occurrences(clients, clients[j], i + 1))
        {
          CopiesNext(RequestFor(client.uri, client.Creds(), exports, cb, env), Occurrences(clients, client, i));
        }
      }
    }

    /**
     * `finish`: finishes every client in list order; the `k`-th batch of
     * the `i`-th client is sent with outcome `outcomeOf(i)(k)`.
     */
    method Finish(outcomeOf: nat -> nat -> TransportOutcome)
      returns (sent: seq<seq<TransportCall>>, done: seq<seq<Completion>>)
      requires Valid()
      modifies clients`workerRunning, clients`reqQueue, PendingHandlers()
      ensures Valid()
      ensures forall j :: 0 <= j < |clients| ==> !clients[j].workerRunning && clients[j].reqQueue == []
      ensures |sent| == |clients|
      ensures forall j :: 0 <= j < |clients| ==> SentAs(sent[j], clients[j].uri, FirstListings(clients, old(Queues()))[j])
      ensures done == Runs(FirstListings(clients, old(Queues())), outcomeOf)
      ensures forall h :: h in old(PendingHandlers()) ==>
                h.State() == CompleteAll(old(h.State()), DeliveredTo(Concat(done), h))
    {
      ghost var handlers := PendingHandlers();
      ghost var start := map h | h in handlers :: h.State();
      ghost var q0 := Queues();
      ghost var listed := FirstListings(clients, q0);
      FinishingStarts(handlers, q0);
      sent, done := [], [];
      for i := 0 to |clients|
        invariant Progress(i, handlers, q0)
        invariant |sent| == i
        invariant AllSent(sent, clients, listed)
        invariant done == Runs(FirstListings(clients, q0)[..i], outcomeOf)
        invariant forall h :: h in handlers ==> h.State() == CompleteAll(start[h], DeliveredTo(Concat(done), h))
      {
        var calls, cs := FinishAt(clients[i], i, outcomeOf(i), handlers, start, Concat(done), q0);
        ConcatSnoc(done, cs);
        RunsSnoc(FirstListings(clients, q0), i, outcomeOf);
        SentNext(sent, calls, clients, listed);
        sent, done := sent + [calls], done + [cs];
      }
      FinishedAll(handlers, q0);
      TakeAll(FirstListings(clients, q0));
    }

    /** Before the first client, every queue is its snapshot and holds only pending handlers. */
    lemma FinishingStarts(handlers: set<PccCallbackHandler>, q0: seq<seq<Req>>)
      requires Valid() && handlers == PendingHandlers() && q0 == Queues()
      ensures Progress(0, handlers, q0)
    {
      forall j | 0 <= j < |clients|
        ensures clients[j].Valid() && HandlersIn(clients[j].reqQueue) <= handlers
      {
        assert clients[j] in clients;
      }
    }

    /** After the last client, every client is finished. */
    lemma FinishedAll(handlers: set<PccCallbackHandler>, q0: seq<seq<Req>>)
      requires Progress(|clients|, handlers, q0)
      ensures Valid()
      ensures forall j :: 0 <= j < |clients| ==> !clients[j].workerRunning && clients[j].reqQueue == []
    {
    }

    /**
     * Clients before position `i` are finished; every client is valid and
     * its queue holds only handlers of `handlers`; a client from `i` on
     * still holds its queue of `q0` unless it is also listed before `i`,
     * in which case it was finished there and its queue is empty.
     */
    ghost predicate Progress(i: nat, handlers: set<PccCallbackHandler>, q0: seq<seq<Req>>)
      reads this, clients
    {
      && i <= |clients| && |q0| == |clients|
      && forall j :: 0 <= j < |clients| ==>
           && clients[j].Valid() && HandlersIn(clients[j].reqQueue) <= handlers
           && (j < i ==> !clients[j].workerRunning && clients[j].reqQueue == [])
           && (i <= j ==> clients[j].reqQueue == if clients[j] in clients[..i] then [] else q0[j])
    }

    /** The call of `finish` on the client at position `i`. */
    method FinishAt(client: PubControlClient, i: nat, outcomeOf: nat -> TransportOutcome,
                    ghost handlers: set<PccCallbackHandler>, ghost start: map<PccCallbackHandler, Tally>,
                    ghost prefix: seq<Completion>, ghost q0: seq<seq<Req>>)
      returns (calls: seq<TransportCall>, cs: seq<Completion>)
      requires i < |clients| && client == clients[i] && Progress(i, handlers, q0) && handlers <= start.Keys
      requires forall h :: h in handlers ==> h.State() == CompleteAll(start[h], DeliveredTo(prefix, h))
      modifies client`workerRunning, client`reqQueue, handlers
      ensures Progress(i + 1, handlers, q0)
      ensures SentAs(calls, client.uri, FirstListings(clients, q0)[i])
      ensures cs == RunCompletions(Chunks(Pending(FirstListings(clients, q0)[i])), outcomeOf)
      ensures forall h :: h in handlers ==> h.State() == CompleteAll(start[h], DeliveredTo(prefix + cs, h))
    {
      ghost var queued := HandlersIn(client.reqQueue);
      var batches;
      batches, calls, cs := client.Finish(outcomeOf);
      ListedNext(clients, i);
      forall h | h in handlers
        ensures h.State() == CompleteAll(start[h], DeliveredTo(prefix + cs, h))
      {
        if h in queued {
          DeliveredChain(start[h], prefix, cs, h);
        } else {
          DeliveredToNone(cs, h);
          DeliveredToAppend(prefix, cs, h);
          assert DeliveredTo(prefix, h) + [] == DeliveredTo(prefix, h);
        }
      }
    }
  }
}
