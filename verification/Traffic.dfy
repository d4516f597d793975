/**
 The traffic of a JSON-RPC client whose calls follow each other: runs of its calls are runs of the
 circuit breaker, so the breaker's bounds hold of them, as far as no reply makes a call raise.
 */
module Traffic {
  import opened Basics
  import opened Json
  import opened Circuit
  import opened RpcClient

  /** One call, and the clock readings when it enters and when it finishes. */
  datatype Timed = Timed(rpcMethod: string, entered: real, finished: real)

  function Answered(w: World, maxRetries: nat, c: Client, call: Timed): CallResult<Json> {
    AfterCall(w, maxRetries, c, call.rpcMethod, call.entered, call.finished).0
  }

  function Next(w: World, maxRetries: nat, c: Client, call: Timed): Client {
    AfterCall(w, maxRetries, c, call.rpcMethod, call.entered, call.finished).1
  }

  /** The client after some calls. */
  function After(w: World, maxRetries: nat, c: Client, calls: seq<Timed>): Client
    decreases |calls|
  {
    if calls == [] then c else After(w, maxRetries, Next(w, maxRetries, c, calls[0]), calls[1..])
  }

  /** No call enters before the one before it has finished. */
  predicate OneAtATime(now: real, calls: seq<Timed>)
    decreases |calls|
  {
    calls == [] || (now <= calls[0].entered <= calls[0].finished && OneAtATime(calls[0].finished, calls[1..]))
  }

  predicate Unanswered(w: World, maxRetries: nat, c: Client, calls: seq<Timed>)
    decreases |calls|
  {
    calls == [] ||
    (!Answered(w, maxRetries, c, calls[0]).Value?
     && Unanswered(w, maxRetries, Next(w, maxRetries, c, calls[0]), calls[1..]))
  }

  /** When calls got past the circuit check. */
  function Admitted(w: World, maxRetries: nat, c: Client, calls: seq<Timed>): seq<real>
    decreases |calls|
  {
    if calls == [] then []
    else
      (if Admits(c.breaker, calls[0].entered) then [calls[0].entered] else [])
      + Admitted(w, maxRetries, Next(w, maxRetries, c, calls[0]), calls[1..])
  }

  predicate Records(w: World, maxRetries: nat, c: Client, call: Timed) {
    Admits(c.breaker, call.entered) && Answered(w, maxRetries, c, call).Failing?
  }

  /** When calls that got past the check were recorded as failures. */
  function Recordings(w: World, maxRetries: nat, c: Client, calls: seq<Timed>): seq<real>
    decreases |calls|
  {
    if calls == [] then []
    else
      (if Records(w, maxRetries, c, calls[0]) then [calls[0].finished] else [])
      + Recordings(w, maxRetries, Next(w, maxRetries, c, calls[0]), calls[1..])
  }

  /** How many calls ended by an exception other than `ProviderError`. */
  function Raises(w: World, maxRetries: nat, c: Client, calls: seq<Timed>): nat
    decreases |calls|
  {
    if calls == [] then 0
    else
      (if Answered(w, maxRetries, c, calls[0]).Raised? then 1 else 0)
      + Raises(w, maxRetries, Next(w, maxRetries, c, calls[0]), calls[1..])
  }

  // ---- calls as events of the breaker ----

  function CallEvents(w: World, maxRetries: nat, c: Client, call: Timed): seq<Event> {
    var r := Answered(w, maxRetries, c, call);
    if !Admits(c.breaker, call.entered) then [Check(call.entered)]
    else
      [Check(call.entered),
       if r.Value? then Success(call.finished) else if r.Failing? then Failure(call.finished) else Raise(call.finished)]
  }

  function Events(w: World, maxRetries: nat, c: Client, calls: seq<Timed>): seq<Event>
    decreases |calls|
  {
    if calls == [] then []
    else CallEvents(w, maxRetries, c, calls[0]) + Events(w, maxRetries, Next(w, maxRetries, c, calls[0]), calls[1..])
  }

  /** What a run of events amounts to: it is legal one call at a time, and ends, admits and records like this. */
  ghost predicate Amounts(s: Circuit.State, run: seq<Event>, end: Breaker, admitted: seq<real>, recorded: seq<real>) {
    && Legal(1, s, run)
    && Exec(s, run).breaker == end
    && Admissions(s, run) == admitted
    && Failures(run) == recorded
  }

  lemma OneMoreEvent(s: Circuit.State, e: Event, rest: seq<Event>, end: Breaker, admitted: seq<real>,
                     recorded: seq<real>)
    requires e.at >= s.now && (e.Check? || s.inFlight > 0) && Step(s, e).inFlight <= 1
    requires Amounts(Step(s, e), rest, end, admitted, recorded)
    ensures Amounts(s, [e] + rest, end, (if e.Check? && Admits(s.breaker, e.at) then [e.at] else []) + admitted,
                    (if e.Failure? then [e.at] else []) + recorded)
  {
    assert ([e] + rest)[1..] == rest;
  }

  /** A refused call is a check, an admitted one a check and the end of the call. */
  lemma CallAsEvents(w: World, maxRetries: nat, c: Client, now: real, call: Timed, rest: seq<Event>,
                     end: Breaker, admitted: seq<real>, recorded: seq<real>)
    requires now <= call.entered <= call.finished
    requires var later := if Admits(c.breaker, call.entered) then call.finished else call.entered;
      Amounts(Circuit.State(Next(w, maxRetries, c, call).breaker, 0, later), rest, end, admitted, recorded)
    ensures Amounts(Circuit.State(c.breaker, 0, now), CallEvents(w, maxRetries, c, call) + rest, end,
      (if Admits(c.breaker, call.entered) then [call.entered] else []) + admitted,
      (if Records(w, maxRetries, c, call) then [call.finished] else []) + recorded)
  {
    hide OutcomeAt, Attempts, StatusAfter, Limit, Amounts;
    var s := Circuit.State(c.breaker, 0, now);
    var es := CallEvents(w, maxRetries, c, call);
    var checked := Step(s, es[0]);
    if Admits(c.breaker, call.entered) {
      assert Step(checked, es[1]) == Circuit.State(Next(w, maxRetries, c, call).breaker, 0, call.finished);
      OneMoreEvent(checked, es[1], rest, end, admitted, recorded);
      assert [] + admitted == admitted;
      var both := (if es[1].Failure? then [call.finished] else []) + recorded;
      OneMoreEvent(s, es[0], [es[1]] + rest, end, admitted, both);
      assert [] + both == both;
      assert es + rest == [es[0]] + ([es[1]] + rest);
    } else {
      assert checked == Circuit.State(Next(w, maxRetries, c, call).breaker, 0, call.entered);
      OneMoreEvent(s, es[0], rest, end, admitted, recorded);
    }
  }

  /** A run of calls is a run of the breaker with the same admissions and recorded failures. */
  lemma {:induction false} RunAsEvents(w: World, maxRetries: nat, c: Client, now: real, calls: seq<Timed>)
    requires OneAtATime(now, calls)
    ensures Amounts(Circuit.State(c.breaker, 0, now), Events(w, maxRetries, c, calls),
      After(w, maxRetries, c, calls).breaker, Admitted(w, maxRetries, c, calls), Recordings(w, maxRetries, c, calls))
    decreases |calls|
  {
    hide AfterCall, Amounts, CallEvents;
    if calls == [] {
      NoEvents(Circuit.State(c.breaker, 0, now));
    } else {
      var call, rest := calls[0], calls[1..];
      var next := Next(w, maxRetries, c, call);
      var later := if Admits(c.breaker, call.entered) then call.finished else call.entered;
      EnterLater(later, call.finished, rest);
      RunAsEvents(w, maxRetries, next, later, rest);
      CallAsEvents(w, maxRetries, c, now, call, Events(w, maxRetries, next, rest),
                   After(w, maxRetries, next, rest).breaker,
                   Admitted(w, maxRetries, next, rest), Recordings(w, maxRetries, next, rest));
    }
  }

  lemma NoEvents(s: Circuit.State)
    ensures Amounts(s, [], s.breaker, [], [])
  {
  }

  lemma EnterLater(now: real, later: real, calls: seq<Timed>)
    requires now <= later && OneAtATime(later, calls)
    ensures OneAtATime(now, calls)
  {
  }

  /** Unanswered calls make no success event, and calls that do not raise no raise event. */
  lemma {:induction false} KindsOfEvents(w: World, maxRetries: nat, c: Client, calls: seq<Timed>)
    requires Unanswered(w, maxRetries, c, calls)
    ensures NoSuccess(Events(w, maxRetries, c, calls))
    ensures Raises(w, maxRetries, c, calls) == 0 ==> NoRaise(Events(w, maxRetries, c, calls))
    decreases |calls|
  {
    hide AfterCall;
    if calls != [] {
      KindsOfEvents(w, maxRetries, Next(w, maxRetries, c, calls[0]), calls[1..]);
    }
  }

  // ---- bounds ----

  /**
   One call at a time and none answered: the calls recorded as failures within `window` seconds
   number at most three per started cool-down period, whatever calls raise in between.
   */
  lemma RecordedFailuresAreFew(w: World, maxRetries: nat, c: Client, now: real, calls: seq<Timed>,
                               i: nat, j: nat, window: real)
    requires Consistent(c.breaker) && OneAtATime(now, calls) && Unanswered(w, maxRetries, c, calls)
    requires var ts := Recordings(w, maxRetries, c, calls);
      i < j <= |ts| && window >= 0.0 && ts[j - 1] - ts[i] <= window
    ensures j - i <= 3 * Periods(window)
  {
    hide AfterCall, Recordings, Events, Unanswered;
    RunAsEvents(w, maxRetries, c, now, calls);
    KindsOfEvents(w, maxRetries, c, calls);
    RecordedFailuresBound(1, Circuit.State(c.breaker, 0, now), Events(w, maxRetries, c, calls), i, j, window);
  }

  /** The same of all calls that get past the check, if none raises. */
  lemma AdmittedCallsAreFew(w: World, maxRetries: nat, c: Client, now: real, calls: seq<Timed>,
                            i: nat, j: nat, window: real)
    requires Consistent(c.breaker) && OneAtATime(now, calls) && Unanswered(w, maxRetries, c, calls)
    requires Raises(w, maxRetries, c, calls) == 0
    requires var ts := Admitted(w, maxRetries, c, calls);
      i < j <= |ts| && window >= 0.0 && ts[j - 1] - ts[i] <= window
    ensures j - i <= 3 * Periods(window)
  {
    hide AfterCall, Admitted, Events, Unanswered, Raises;
    RunAsEvents(w, maxRetries, c, now, calls);
    KindsOfEvents(w, maxRetries, c, calls);
    FailingTrafficBound(1, Circuit.State(c.breaker, 0, now), Events(w, maxRetries, c, calls), i, j, window);
  }

  /** Every admitted call of an unanswered run is recorded as a failure or raises. */
  lemma {:induction false} AdmittedOrRefused(w: World, maxRetries: nat, c: Client, calls: seq<Timed>)
    requires Unanswered(w, maxRetries, c, calls)
    ensures |Admitted(w, maxRetries, c, calls)|
      == |Recordings(w, maxRetries, c, calls)| + Raises(w, maxRetries, c, calls)
    decreases |calls|
  {
    hide OutcomeAt, Attempts, StatusAfter;
    if calls != [] {
      AdmittedOrRefused(w, maxRetries, Next(w, maxRetries, c, calls[0]), calls[1..]);
    }
  }

  lemma OneCallSends(w: World, maxRetries: nat, c: Client, call: Timed)
    ensures var next := Next(w, maxRetries, c, call);
      if Admits(c.breaker, call.entered) then c.sent < next.sent <= c.sent + maxRetries + 1 else next == c
  {
    hide Admits, StatusAfter, Recorded, Checked, OutcomeAt, ResultOf;
  }

  lemma Distribute(a: nat, n: nat)
    ensures a * (n + 1) == a * n + a
  {
  }

  /** Each admitted call sends between 1 and `maxRetries + 1` requests, a refused one none. */
  lemma {:induction false} RequestsPerCall(w: World, maxRetries: nat, c: Client, calls: seq<Timed>)
    ensures var n := |Admitted(w, maxRetries, c, calls)|;
      c.sent + n <= After(w, maxRetries, c, calls).sent <= c.sent + (maxRetries + 1) * n
    decreases |calls|
  {
    hide AfterCall, Admits, Next;
    if calls != [] {
      var next := Next(w, maxRetries, c, calls[0]);
      RequestsPerCall(w, maxRetries, next, calls[1..]);
      OneCallSends(w, maxRetries, c, calls[0]);
      Distribute(maxRetries + 1, |Admitted(w, maxRetries, next, calls[1..])|);
    }
  }

  lemma Monotone(a: nat, x: nat, y: nat)
    requires x <= y
    ensures a * x <= a * y
  {
  }

  /** None of the replies read makes a call raise. */
  ghost predicate NoStrayRead(w: World, from: nat, to: nat) {
    forall n: nat :: from <= n < to ==> !OutcomeAt(w, n).Stray?
  }

  lemma {:induction false} NothingRaises(w: World, maxRetries: nat, c: Client, calls: seq<Timed>)
    requires NoStrayRead(w, c.sent, After(w, maxRetries, c, calls).sent)
    ensures Raises(w, maxRetries, c, calls) == 0
    decreases |calls|
  {
    hide Admits, StatusAfter, Recorded, Checked, OutcomeAt;
    if calls != [] {
      var next := Next(w, maxRetries, c, calls[0]);
      RequestsPerCall(w, maxRetries, next, calls[1..]);
      assert next.sent > c.sent ==> !OutcomeAt(w, next.sent - 1).Stray?;
      NothingRaises(w, maxRetries, next, calls[1..]);
    }
  }

  /**
   Failing traffic: without an answered call and without a stray reply, what gets past the check
   within `window` seconds is at most three calls per started period, and at most `maxRetries + 1`
   times as many HTTP requests.
   */
  lemma FailingTraffic(w: World, maxRetries: nat, c: Client, now: real, calls: seq<Timed>, window: real)
    requires Consistent(c.breaker) && OneAtATime(now, calls) && Unanswered(w, maxRetries, c, calls)
    requires NoStrayRead(w, c.sent, After(w, maxRetries, c, calls).sent)
    requires var ts := Admitted(w, maxRetries, c, calls);
      window >= 0.0 && (ts != [] ==> ts[|ts| - 1] - ts[0] <= window)
    ensures |Admitted(w, maxRetries, c, calls)| <= 3 * Periods(window)
    ensures After(w, maxRetries, c, calls).sent - c.sent <= (maxRetries + 1) * (3 * Periods(window))
  {
    hide AfterCall, Admitted, Unanswered, Raises, After, OneAtATime;
    var n := |Admitted(w, maxRetries, c, calls)|;
    NothingRaises(w, maxRetries, c, calls);
    if n > 0 {
      AdmittedCallsAreFew(w, maxRetries, c, now, calls, 0, n, window);
    }
    RequestsPerCall(w, maxRetries, c, calls);
    Monotone(maxRetries + 1, n, 3 * Periods(window));
  }

  // ---- why stray replies must be excluded ----

  /** A network that always answers with one reply. */
  function Always(r: Reply, show: Json -> string): World {
    World((n: nat) => r, show)
  }

  /** `n` calls of one method in one instant. */
  function Burst(rpcMethod: string, n: nat, t: real): seq<Timed>
    ensures |Burst(rpcMethod, n, t)| == n
  {
    if n == 0 then [] else [Timed(rpcMethod, t, t)] + Burst(rpcMethod, n - 1, t)
  }

  lemma {:induction false} BurstOneAtATime(rpcMethod: string, n: nat, t: real)
    ensures OneAtATime(t, Burst(rpcMethod, n, t))
  {
    if n > 0 {
      BurstOneAtATime(rpcMethod, n - 1, t);
      assert Burst(rpcMethod, n, t)[1..] == Burst(rpcMethod, n - 1, t);
    }
  }

  lemma StrayCall(r: Reply, show: Json -> string, maxRetries: nat, c: Client, call: Timed)
    requires ReadReply(r, show).Stray? && c.breaker == CLOSED
    ensures AfterCall(Always(r, show), maxRetries, c, call.rpcMethod, call.entered, call.finished) ==
      (Raised, c.(requestId := c.requestId + 1, sent := c.sent + 1))
  {
    hide ReadReply;
    var w := Always(r, show);
    assert forall n: nat :: OutcomeAt(w, n) == ReadReply(r, show);
    assert Attempts(w, c.sent, Limit(call.rpcMethod, maxRetries)) == 1;
  }

  /** Stray replies leave the circuit closed for ever: any number of calls gets through in one instant. */
  lemma {:induction false} StrayRepliesAreUnbounded(r: Reply, show: Json -> string, maxRetries: nat, c: Client,
                                                    rpcMethod: string, n: nat, t: real)
    requires ReadReply(r, show).Stray? && c.breaker == CLOSED
    ensures var w, calls := Always(r, show), Burst(rpcMethod, n, t);
      && OneAtATime(t, calls) && Unanswered(w, maxRetries, c, calls)
      && Admitted(w, maxRetries, c, calls) == seq(n, _ => t)
      && After(w, maxRetries, c, calls).sent == c.sent + n && After(w, maxRetries, c, calls).breaker == CLOSED
    decreases n
  {
    hide ReadReply, AfterCall;
    BurstOneAtATime(rpcMethod, n, t);
    if n > 0 {
      var w, calls := Always(r, show), Burst(rpcMethod, n, t);
      var next := c.(requestId := c.requestId + 1, sent := c.sent + 1);
      assert calls[1..] == Burst(rpcMethod, n - 1, t);
      StrayCall(r, show, maxRetries, c, calls[0]);
      assert Next(w, maxRetries, c, calls[0]) == next;
      StrayRepliesAreUnbounded(r, show, maxRetries, next, rpcMethod, n - 1, t);
      assert [t] + seq(n - 1, _ => t) == seq(n, _ => t);
    }
  }

  /** The bound on admissions, for all one-at-a-time runs of a client. */
  ghost predicate Bounded(w: World, maxRetries: nat) {
    forall c: Client, now: real, calls: seq<Timed>, window: real ::
      UnansweredWithin(w, maxRetries, c, now, calls, window) ==>
        |Admitted(w, maxRetries, c, calls)| <= 3 * Periods(window)
  }

  /** A run without an answered call, whose admissions lie within `window` seconds. */
  ghost predicate UnansweredWithin(w: World, maxRetries: nat, c: Client, now: real, calls: seq<Timed>, window: real) {
    && Consistent(c.breaker) && OneAtATime(now, calls) && Unanswered(w, maxRetries, c, calls) && window >= 0.0
    && var ts := Admitted(w, maxRetries, c, calls); ts != [] ==> ts[|ts| - 1] - ts[0] <= window
  }

  /** All replies of the network are of the kinds given. */
  ghost predicate RepliesOf(w: World, kinds: Reply -> bool) {
    forall n: nat :: kinds(w.replies(n))
  }

  /**
   The bound holds of every client whose network gives replies of some kinds exactly when none of
   those replies is an error object with an array or object as its code.
   */
  lemma BoundedIffNoStrayReply(kinds: Reply -> bool, show: Json -> string, maxRetries: nat)
    ensures (forall w: World :: w.show == show && RepliesOf(w, kinds) ==> Bounded(w, maxRetries)) <==>
      (forall r: Reply :: kinds(r) ==> !ReadReply(r, show).Stray?)
  {
    hide ReadReply, AfterCall, Admitted, After, OneAtATime, Unanswered;
    if forall r: Reply :: kinds(r) ==> !ReadReply(r, show).Stray? {
      forall w: World | w.show == show && RepliesOf(w, kinds) ensures Bounded(w, maxRetries) {
        forall c: Client, now: real, calls: seq<Timed>, window: real
          | UnansweredWithin(w, maxRetries, c, now, calls, window)
          ensures |Admitted(w, maxRetries, c, calls)| <= 3 * Periods(window)
        {
          assert forall n: nat :: kinds(w.replies(n));
          FailingTraffic(w, maxRetries, c, now, calls, window);
        }
      }
    } else {
      var r: Reply :| kinds(r) && ReadReply(r, show).Stray?;
      var w, c, calls := Always(r, show), Client(CLOSED, UNKNOWN, 0, 0), Burst("eth_chainId", 4, 0.0);
      assert RepliesOf(w, kinds);
      StrayRepliesAreUnbounded(r, show, maxRetries, c, "eth_chainId", 4, 0.0);
      assert UnansweredWithin(w, maxRetries, c, 0.0, calls, 0.0);
      assert Periods(0.0) == 1;
      assert !Bounded(w, maxRetries);
    }
  }
}
