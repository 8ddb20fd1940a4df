/**
 * PccCallbackHandler: the join counter that a PubControl shares among its
 * clients. It counts completions down, keeps a sticky failure flag and the
 * first error message, and calls the wrapped callback whenever the count
 * has reached zero or below.
 */
module Callbacks {
  import opened Wrappers

  /** The `(result, message)` pair a callback's `completed` receives. */
  datatype Outcome = Outcome(success: bool, message: Option<string>)

  /**
   * The state of a handler: the remaining count, the success flag, the first
   * error message, and `fired`, the calls the wrapped callback has received.
   */
  datatype Tally = Tally(remaining: int, success: bool, firstError: Option<string>, fired: seq<Outcome>)

  /** A fresh handler for `n` calls. */
  function Start(n: int): Tally {
    Tally(n, true, None, [])
  }

  /** One `completed` call. */
  function Complete(t: Tally, o: Outcome): Tally {
    var firstFailure := !o.success && t.success;
    var success := if firstFailure then false else t.success;
    var firstError := if firstFailure then o.message else t.firstError;
    var remaining := t.remaining - 1;
    Tally(remaining, success, firstError,
          if remaining <= 0 then t.fired + [Outcome(success, firstError)] else t.fired)
  }

  /** A run of `completed` calls, in order. */
  function CompleteAll(t: Tally, os: seq<Outcome>): Tally
    decreases |os|
  {
    if os == [] then t
    else Complete(CompleteAll(t, os[..|os| - 1]), os[|os| - 1])
  }

  predicate AllSucceed(os: seq<Outcome>) {
    forall k :: 0 <= k < |os| ==> os[k].success
  }

  /** The position of the first failing outcome. */
  function FirstFailure(os: seq<Outcome>): (k: nat)
    requires !AllSucceed(os)
    ensures k < |os| && !os[k].success && AllSucceed(os[..k])
  {
    if !os[0].success then 0
    else
      var k := FirstFailure(os[1..]);
      assert forall i :: 0 <= i < k + 1 ==> os[..k + 1][i] == os[i];
      assert forall i :: 1 <= i < k + 1 ==> os[i] == os[1..][..k][i - 1];
      k + 1
  }

  lemma FirstFailureIs(os: seq<Outcome>, k: nat)
    requires k < |os| && !os[k].success && AllSucceed(os[..k])
    ensures !AllSucceed(os) && FirstFailure(os) == k
  {
    var f := FirstFailure(os);
    if f < k {
      assert false;
    } else if f > k {
      assert false;
    }
  }

  /** The `(success, firstErrorMessage)` pair after the calls `os`, starting from `t`. */
  function Verdict(t: Tally, os: seq<Outcome>): Outcome {
    if t.success && !AllSucceed(os) then Outcome(false, os[FirstFailure(os)].message)
    else Outcome(t.success && AllSucceed(os), t.firstError)
  }

  /** Number of calls among `m` completions that fire, starting from count `n`. */
  function Fires(n: int, m: nat): nat {
    if m < n then 0 else if n <= 0 then m else m - n + 1
  }

  /** Every completion decreases the count by exactly one. */
  lemma {:induction false} CountDown(t: Tally, os: seq<Outcome>)
    ensures CompleteAll(t, os).remaining == t.remaining - |os|
  {
    if os != [] {
      CountDown(t, os[..|os| - 1]);
    }
  }

  /**
   * Failure is sticky and the first error wins: the flag is false exactly
   * when some completion failed (or it already was), and the message is the
   * one of the first failing completion, never overwritten by a later one.
   */
  lemma {:induction false} StickyFailure(t: Tally, os: seq<Outcome>)
    ensures CompleteAll(t, os).success == Verdict(t, os).success
    ensures CompleteAll(t, os).firstError == Verdict(t, os).message
  {
    if os != [] {
      var init := os[..|os| - 1];
      var last := os[|os| - 1];
      StickyFailure(t, init);
      assert forall k :: 0 <= k < |init| ==> init[k] == os[k];
      if !AllSucceed(init) {
        var k := FirstFailure(init);
        assert os[..k] == init[..k];
        FirstFailureIs(os, k);
      } else if !last.success {
        assert os[..|os| - 1] == init;
        FirstFailureIs(os, |os| - 1);
      }
    }
  }

  /**
   * Each completion that leaves the count at zero or below fires, and the
   * calls received so far are never taken back.
   */
  lemma {:induction false} FiredCount(t: Tally, os: seq<Outcome>)
    ensures |CompleteAll(t, os).fired| == |t.fired| + Fires(t.remaining, |os|)
    ensures CompleteAll(t, os).fired[..|t.fired|] == t.fired
  {
    if os != [] {
      var init := os[..|os| - 1];
      FiredCount(t, init);
      CountDown(t, init);
    }
  }

  /** With `n >= 1`, fewer than `n` completions never call the wrapped callback. */
  lemma NoCallBeforeCount(n: int, os: seq<Outcome>)
    requires 1 <= n && |os| < n
    ensures CompleteAll(Start(n), os).fired == []
  {
    FiredCount(Start(n), os);
  }

  /**
   * The `n`-th completion calls the wrapped callback exactly once, with the
   * sticky success flag and the first error message of the whole run.
   */
  lemma CallAtCount(n: int, os: seq<Outcome>)
    requires 1 <= n && |os| == n
    ensures CompleteAll(Start(n), os).fired == [Verdict(Start(n), os)]
  {
    var init := os[..|os| - 1];
    NoCallBeforeCount(n, init);
    CountDown(Start(n), init);
    StickyFailure(Start(n), os);
  }

  /** If every completion succeeds the wrapped callback receives `(true, null)`. */
  lemma AllSuccessReportsTrue(n: int, os: seq<Outcome>)
    requires 1 <= n && |os| == n && AllSucceed(os)
    ensures CompleteAll(Start(n), os).fired == [Outcome(true, None)]
  {
    CallAtCount(n, os);
  }

  /** Completions beyond the `n`-th call the wrapped callback again, one call each. */
  lemma ExtraCompletionsCallAgain(n: int, os: seq<Outcome>)
    requires 1 <= n && |os| >= n
    ensures |CompleteAll(Start(n), os).fired| == |os| - n + 1
  {
    FiredCount(Start(n), os);
  }

  /** Running `a` then `b` is running `a + b`. */
  lemma {:induction false} CompleteAllAppend(t: Tally, a: seq<Outcome>, b: seq<Outcome>)
    ensures CompleteAll(t, a + b) == CompleteAll(CompleteAll(t, a), b)
  {
    if b == [] {
      assert a + b == a;
    } else {
      var init := b[..|b| - 1];
      CompleteAllAppend(t, a, init);
      assert (a + b)[..|a + b| - 1] == a + init;
    }
  }

  /** `PccCallbackHandler`; `callback` identifies the wrapped user callback. */
  class PccCallbackHandler {
    var numCalls: int
    const callback: nat
    var success: bool
    var firstErrorMessage: Option<string>
    /** The calls the wrapped callback has received, in order. */
    ghost var fired: seq<Outcome>

    ghost function State(): Tally
      reads this
    {
      Tally(numCalls, success, firstErrorMessage, fired)
    }

    constructor (numCalls: int, callback: nat)
      ensures State() == Start(numCalls) && this.callback == callback
    {
      this.numCalls := numCalls;
      this.callback := callback;
      this.success := true;
      this.firstErrorMessage := None;
      this.fired := [];
    }

    /** `completed`: record a failure if it is the first, count down, and fire at zero or below. */
    method Completed(success: bool, message: Option<string>)
      modifies this
      ensures State() == Complete(old(State()), Outcome(success, message))
      ensures numCalls == old(numCalls) - 1
      ensures this.success == (old(this.success) && success)
      ensures firstErrorMessage == if old(this.success) && !success then message else old(firstErrorMessage)
      ensures fired == old(fired) + if numCalls <= 0 then [Outcome(this.success, firstErrorMessage)] else []
    {
      if !success && this.success {
        this.success := false;
        this.firstErrorMessage := message;
      }
      this.numCalls := this.numCalls - 1;
      if this.numCalls <= 0 {
        this.fired := this.fired + [Outcome(this.success, this.firstErrorMessage)];
      }
    }
  }

  /** A non-null `PublishCallback`: a user callback, or a handler shared by a PubControl. */
  datatype Callback = User(id: nat) | Joined(handler: PccCallbackHandler)

  /** One `callback.completed(result, message)` call to make. */
  datatype Completion = Completion(callback: Callback, outcome: Outcome)

  ghost function HandlersOf(cs: seq<Completion>): set<PccCallbackHandler> {
    set c | c in cs && c.callback.Joined? :: c.callback.handler
  }

  lemma HandlersOfAppend(a: seq<Completion>, b: seq<Completion>)
    ensures HandlersOf(a + b) == HandlersOf(a) + HandlersOf(b)
  {
    assert forall c :: c in a + b <==> c in a || c in b;
  }

  /** The outcomes that reach handler `h`, in order. */
  function DeliveredTo(cs: seq<Completion>, h: PccCallbackHandler): seq<Outcome> {
    if cs == [] then []
    else DeliveredTo(cs[..|cs| - 1], h)
         + if cs[|cs| - 1].callback == Joined(h) then [cs[|cs| - 1].outcome] else []
  }

  lemma {:induction false} DeliveredToAppend(a: seq<Completion>, b: seq<Completion>, h: PccCallbackHandler)
    ensures DeliveredTo(a + b, h) == DeliveredTo(a, h) + DeliveredTo(b, h)
  {
    if b == [] {
      assert a + b == a;
    } else {
      DeliveredToAppend(a, b[..|b| - 1], h);
      assert (a + b)[..|a + b| - 1] == a + b[..|b| - 1];
    }
  }

  /** A handler none of the completions address receives nothing. */
  lemma {:induction false} DeliveredToNone(cs: seq<Completion>, h: PccCallbackHandler)
    requires h !in HandlersOf(cs)
    ensures DeliveredTo(cs, h) == []
  {
    if cs != [] {
      assert HandlersOf(cs[..|cs| - 1]) <= HandlersOf(cs) by {
        forall g | g in HandlersOf(cs[..|cs| - 1]) ensures g in HandlersOf(cs) {
          var c :| c in cs[..|cs| - 1] && c.callback.Joined? && c.callback.handler == g;
          assert c in cs;
        }
      }
      DeliveredToNone(cs[..|cs| - 1], h);
      assert cs[|cs| - 1] in cs;
    }
  }

  /** One more completion adds its outcome to what its handler receives, and nothing to any other. */
  lemma DeliveredToNext(cs: seq<Completion>, i: nat)
    requires i < |cs|
    ensures forall h :: DeliveredTo(cs[..i + 1], h)
                        == DeliveredTo(cs[..i], h) + if cs[i].callback == Joined(h) then [cs[i].outcome] else []
  {
    assert cs[..i + 1][..i] == cs[..i];
  }

  /** Running `os` and then `o` is one more completion. */
  lemma CompleteAllSnoc(t: Tally, os: seq<Outcome>, o: Outcome)
    ensures CompleteAll(t, os + [o]) == Complete(CompleteAll(t, os), o)
  {
    assert (os + [o])[..|os|] == os;
  }

  /**
   * Makes the `completed` calls in order. A handler receives the outcomes
   * addressed to it and updates its state as that run of completions does;
   * user callbacks are outside the model.
   */
  method Dispatch(cs: seq<Completion>)
    modifies HandlersOf(cs)
    ensures forall h :: h in HandlersOf(cs) ==> h.State() == CompleteAll(old(h.State()), DeliveredTo(cs, h))
  {
    for i := 0 to |cs|
      invariant forall h :: h in HandlersOf(cs) ==> h.State() == CompleteAll(old(h.State()), DeliveredTo(cs[..i], h))
    {
      var c := cs[i];
      DeliveredToNext(cs, i);
      if c.callback.Joined? {
        var h := c.callback.handler;
        assert c in cs;
        CompleteAllSnoc(old(h.State()), DeliveredTo(cs[..i], h), c.outcome);
        h.Completed(c.outcome.success, c.outcome.message);
        assert h.State() == CompleteAll(old(h.State()), DeliveredTo(cs[..i + 1], h));
      }
      assert forall g :: g in HandlersOf(cs) && c.callback != Joined(g) ==> DeliveredTo(cs[..i + 1], g) == DeliveredTo(cs[..i], g);
    }
    assert cs[..|cs|] == cs;
  }
}
