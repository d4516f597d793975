/**
 The circuit breaker of the JSON-RPC client as a timed state machine, and the bound it puts on
 failing traffic.  Calls may overlap: up to `c` of them are past the check and not yet finished.
 */
module Circuit {
  import opened Basics

  const THRESHOLD := 3
  const COOLDOWN := 30.0

  datatype Breaker = Breaker(failures: nat, openedAt: Option<real>)

  const CLOSED := Breaker(0, None)

  predicate Admits(b: Breaker, now: real) {
    b.openedAt.None? || now - b.openedAt.value >= COOLDOWN
  }

  /** The breaker after a check: a cooled-down circuit closes and forgets its failures. */
  function Checked(b: Breaker, now: real): Breaker {
    if b.openedAt.Some? && Admits(b, now) then CLOSED else b
  }

  function Failed(b: Breaker, now: real): Breaker {
    Breaker(b.failures + 1, if b.failures + 1 >= THRESHOLD then Some(now) else b.openedAt)
  }

  /** The circuit is open exactly when the failure count has reached the threshold. */
  predicate Consistent(b: Breaker) {
    b.openedAt.Some? <==> b.failures >= THRESHOLD
  }

  lemma ConsistentKept(b: Breaker, now: real)
    requires Consistent(b)
    ensures Consistent(CLOSED) && Consistent(Checked(b, now)) && Consistent(Failed(b, now))
    ensures Admits(b, now) ==> Checked(b, now).failures < THRESHOLD
  {
  }

  // ---- runs ----

  /** A call that ends by an exception other than `ProviderError` records nothing: it is a Raise. */
  datatype Event = Check(at: real) | Failure(at: real) | Success(at: real) | Raise(at: real)

  datatype State = State(breaker: Breaker, inFlight: nat, now: real)

  function Step(s: State, e: Event): State {
    match e
    case Check(t) => State(Checked(s.breaker, t), if Admits(s.breaker, t) then s.inFlight + 1 else s.inFlight, t)
    case Failure(t) => State(Failed(s.breaker, t), if s.inFlight > 0 then s.inFlight - 1 else 0, t)
    case Success(t) => State(CLOSED, if s.inFlight > 0 then s.inFlight - 1 else 0, t)
    case Raise(t) => State(s.breaker, if s.inFlight > 0 then s.inFlight - 1 else 0, t)
  }

  /** Time does not run backwards, only calls in flight finish, and at most `c` are in flight. */
  ghost predicate Legal(c: nat, s: State, run: seq<Event>)
    decreases |run|
  {
    run == [] ||
    (&& run[0].at >= s.now
     && (run[0].Check? || s.inFlight > 0)
     && Step(s, run[0]).inFlight <= c
     && Legal(c, Step(s, run[0]), run[1..]))
  }

  predicate NoSuccess(run: seq<Event>) {
    forall e <- run :: !e.Success?
  }

  predicate NoRaise(run: seq<Event>) {
    forall e <- run :: !e.Raise?
  }

  /** The times at which calls got past the check. */
  function Admissions(s: State, run: seq<Event>): seq<real>
    decreases |run|
  {
    if run == [] then []
    else
      var rest := Admissions(Step(s, run[0]), run[1..]);
      if run[0].Check? && Admits(s.breaker, run[0].at) then [run[0].at] + rest else rest
  }

  /** The times at which failures were recorded. */
  function Failures(run: seq<Event>): seq<real> {
    if run == [] then []
    else if run[0].Failure? then [run[0].at] + Failures(run[1..])
    else Failures(run[1..])
  }

  function Exec(s: State, run: seq<Event>): State
    decreases |run|
  {
    if run == [] then s else Exec(Step(s, run[0]), run[1..])
  }

  /** Over any run, whatever succeeds or fails, the circuit is open iff three failures are counted. */
  lemma {:induction false} OpenIffThreeFailures(s: State, run: seq<Event>)
    requires Consistent(s.breaker)
    ensures Consistent(Exec(s, run).breaker)
    decreases |run|
  {
    if run != [] {
      ConsistentKept(s.breaker, run[0].at);
      OpenIffThreeFailures(Step(s, run[0]), run[1..]);
    }
  }

  /**
   `k` calls were admitted after one admitted at `since`.  Either the cool-down has passed, or
   each of those calls is still in flight or has been counted as a failure.
   */
  ghost predicate Accounted(s: State, since: real, k: nat) {
    || s.now >= since + COOLDOWN
    || (&& s.breaker.failures + s.inFlight >= 1 + k
        && (s.breaker.openedAt.Some? ==> s.breaker.openedAt.value >= since))
  }

  lemma AccountedKept(s: State, e: Event, since: real, k: nat)
    requires Consistent(s.breaker) && Accounted(s, since, k) && s.now >= since
    requires e.at >= s.now && !e.Success? && !e.Raise? && (e.Check? || s.inFlight > 0)
    ensures Accounted(Step(s, e), since, if e.Check? && Admits(s.breaker, e.at) then k + 1 else k)
  {
  }

  /** Counting from an admission at `since`, the (c+2)-nd admission after it waits out the cool-down. */
  lemma {:induction false} CoolDownPaid(c: nat, s: State, run: seq<Event>, since: real, k: nat)
    requires Consistent(s.breaker) && Legal(c, s, run) && NoSuccess(run) && NoRaise(run)
    requires s.now >= since && Accounted(s, since, k) && k <= c + 1
    requires |Admissions(s, run)| >= c + 2 - k
    ensures Admissions(s, run)[c + 1 - k] >= since + COOLDOWN
    decreases |run|
  {
    var e, t := run[0], Step(s, run[0]);
    assert e in run;
    ConsistentKept(s.breaker, e.at);
    AccountedKept(s, e, since, k);
    if e.Check? && Admits(s.breaker, e.at) {
      if k < c + 1 {
        CoolDownPaid(c, t, run[1..], since, k + 1);
      }
    } else {
      CoolDownPaid(c, t, run[1..], since, k);
    }
  }

  /** Any c+3 consecutive admissions of a stretch in which calls only fail span the cool-down. */
  lemma {:induction false} AdmissionsSpread(c: nat, s: State, run: seq<Event>, i: nat)
    requires Consistent(s.breaker) && Legal(c, s, run) && NoSuccess(run) && NoRaise(run)
    requires i + c + 2 < |Admissions(s, run)|
    ensures Admissions(s, run)[i + c + 2] >= Admissions(s, run)[i] + COOLDOWN
    decreases |run|
  {
    var e, t := run[0], Step(s, run[0]);
    assert e in run;
    ConsistentKept(s.breaker, e.at);
    if e.Check? && Admits(s.breaker, e.at) {
      if i == 0 {
        CoolDownPaid(c, t, run[1..], e.at, 0);
      } else {
        AdmissionsSpread(c, t, run[1..], i - 1);
      }
    } else {
      AdmissionsSpread(c, t, run[1..], i);
    }
  }

  /** Times of which any k+1 consecutive ones span the cool-down are sparse. */
  lemma {:induction false} Sparse(xs: seq<real>, k: nat, i: nat, q: nat)
    requires forall m :: 0 <= m && m + k < |xs| ==> Apart(xs, m, k)
    requires i + q * k < |xs|
    ensures xs[i + q * k] >= xs[i] + COOLDOWN * q as real
    decreases q
  {
    if q > 0 {
      assert q * k == (q - 1) * k + k;
      Sparse(xs, k, i, q - 1);
      assert Apart(xs, i + (q - 1) * k, k);
    }
  }

  ghost predicate Apart(xs: seq<real>, m: nat, k: nat)
    requires m + k < |xs|
  {
    xs[m + k] >= xs[m] + COOLDOWN
  }

  function Periods(window: real): nat
    requires window >= 0.0
  {
    (window / COOLDOWN).Floor + 1
  }

  /**
   In a stretch in which calls only fail, the calls admitted within `window` seconds number at
   most (c+2) per started cool-down period.
   */
  lemma FailingTrafficBound(c: nat, s: State, run: seq<Event>, i: nat, j: nat, window: real)
    requires Consistent(s.breaker) && Legal(c, s, run) && NoSuccess(run) && NoRaise(run)
    requires i < j <= |Admissions(s, run)|
    requires window >= 0.0 && Admissions(s, run)[j - 1] - Admissions(s, run)[i] <= window
    ensures j - i <= (c + 2) * Periods(window)
  {
    hide Admissions, Legal, Admits, Step;
    var xs, k, q := Admissions(s, run), c + 2, Periods(window);
    assert window < COOLDOWN * q as real;
    if j - i > k * q {
      forall m | 0 <= m && m + k < |xs| ensures Apart(xs, m, k) {
        AdmissionsSpread(c, s, run, m);
      }
      assert q * k == k * q;
      Sparse(xs, k, i, q);
      NonDecreasing(c, s, run, i + q * k, j - 1);
    }
  }

  lemma {:induction false} FirstAdmission(c: nat, s: State, run: seq<Event>, i: nat)
    requires Legal(c, s, run) && i < |Admissions(s, run)|
    ensures Admissions(s, run)[i] >= s.now
    decreases |run|
  {
    if run[0].Check? && Admits(s.breaker, run[0].at) {
      if i > 0 {
        FirstAdmission(c, Step(s, run[0]), run[1..], i - 1);
      }
    } else {
      FirstAdmission(c, Step(s, run[0]), run[1..], i);
    }
  }

  lemma {:induction false} NonDecreasing(c: nat, s: State, run: seq<Event>, i: nat, j: nat)
    requires Legal(c, s, run) && i <= j < |Admissions(s, run)|
    ensures Admissions(s, run)[i] <= Admissions(s, run)[j]
    decreases |run|
  {
    if run[0].Check? && Admits(s.breaker, run[0].at) {
      if i > 0 {
        NonDecreasing(c, Step(s, run[0]), run[1..], i - 1, j - 1);
      } else if j > 0 {
        FirstAdmission(c, Step(s, run[0]), run[1..], j - 1);
      }
    } else {
      NonDecreasing(c, Step(s, run[0]), run[1..], i, j);
    }
  }

  // ---- recorded failures, with calls that raise in between ----

  /**
   `k` failures were recorded from `since` on, that at `since` included.  Either the cool-down has
   passed, or all of them are counted and the calls still in flight leave room for few more.
   */
  ghost predicate Owed(c: nat, s: State, since: real, k: nat) {
    || s.now >= since + COOLDOWN
    || (&& s.breaker.failures >= k && s.inFlight <= c
        && (s.breaker.openedAt.Some? ==> s.breaker.openedAt.value >= since && k + s.inFlight <= c + 2))
  }

  lemma OwedKept(c: nat, s: State, e: Event, since: real, k: nat)
    requires Consistent(s.breaker) && Owed(c, s, since, k) && s.now >= since
    requires e.at >= s.now && !e.Success? && (e.Check? || s.inFlight > 0) && Step(s, e).inFlight <= c
    ensures Owed(c, Step(s, e), since, if e.Failure? then k + 1 else k)
  {
  }

  lemma {:induction false} NextFailuresWait(c: nat, s: State, run: seq<Event>, since: real, k: nat)
    requires Consistent(s.breaker) && Legal(c, s, run) && NoSuccess(run)
    requires s.now >= since && Owed(c, s, since, k) && k <= c + 2
    requires |Failures(run)| >= c + 3 - k
    ensures Failures(run)[c + 2 - k] >= since + COOLDOWN
    decreases |run|
  {
    var e, t := run[0], Step(s, run[0]);
    assert e in run;
    ConsistentKept(s.breaker, e.at);
    OwedKept(c, s, e, since, k);
    if !e.Failure? {
      NextFailuresWait(c, t, run[1..], since, k);
    } else if k < c + 2 {
      NextFailuresWait(c, t, run[1..], since, k + 1);
    }
  }

  /** Whatever raises in between, any c+3 consecutive recorded failures without a success span the cool-down. */
  lemma {:induction false} FailuresSpread(c: nat, s: State, run: seq<Event>, i: nat)
    requires Consistent(s.breaker) && Legal(c, s, run) && NoSuccess(run) && s.inFlight <= c
    requires i + c + 2 < |Failures(run)|
    ensures Failures(run)[i + c + 2] >= Failures(run)[i] + COOLDOWN
    decreases |run|
  {
    var e, t := run[0], Step(s, run[0]);
    assert e in run;
    ConsistentKept(s.breaker, e.at);
    if !e.Failure? {
      FailuresSpread(c, t, run[1..], i);
    } else if i > 0 {
      FailuresSpread(c, t, run[1..], i - 1);
    } else {
      NextFailuresWait(c, t, run[1..], e.at, 1);
    }
  }

  lemma {:induction false} FailuresInOrder(c: nat, s: State, run: seq<Event>, i: nat, j: nat)
    requires Legal(c, s, run) && i <= j < |Failures(run)|
    ensures s.now <= Failures(run)[i] <= Failures(run)[j]
    decreases |run|
  {
    var t := Step(s, run[0]);
    if !run[0].Failure? {
      FailuresInOrder(c, t, run[1..], i, j);
    } else if j > 0 {
      FailuresInOrder(c, t, run[1..], if i > 0 then i - 1 else 0, j - 1);
    }
  }

  /** Without a success, the failures recorded within `window` seconds number at most (c+2) per started period. */
  lemma RecordedFailuresBound(c: nat, s: State, run: seq<Event>, i: nat, j: nat, window: real)
    requires Consistent(s.breaker) && Legal(c, s, run) && NoSuccess(run) && s.inFlight <= c
    requires i < j <= |Failures(run)|
    requires window >= 0.0 && Failures(run)[j - 1] - Failures(run)[i] <= window
    ensures j - i <= (c + 2) * Periods(window)
  {
    hide Failures, Legal, Admits, Step;
    var xs, k, q := Failures(run), c + 2, Periods(window);
    assert window < COOLDOWN * q as real;
    if j - i > k * q {
      forall m | 0 <= m && m + k < |xs| ensures Apart(xs, m, k) {
        FailuresSpread(c, s, run, m);
      }
      assert q * k == k * q;
      Sparse(xs, k, i, q);
      FailuresInOrder(c, s, run, i + q * k, j - 1);
    }
  }

  /** The bound is attained: three calls fail within one instant, and the fourth is refused. */
  lemma BoundAttained(t: real)
    ensures var run := [Check(t), Failure(t), Check(t), Failure(t), Check(t), Failure(t)];
      var s := State(CLOSED, 0, t);
      && Legal(1, s, run) && NoSuccess(run) && NoRaise(run)
      && Admissions(s, run) == [t, t, t] && Periods(0.0) == 1
      && !Admits(Exec(s, run).breaker, t)
      && forall u: real :: Admits(Exec(s, run).breaker, u) <==> u >= t + 30.0
  {
    var c, f := Check(t), Failure(t);
    var s0 := State(CLOSED, 0, t);
    var s1 := Step(s0, c);
    var s2 := Step(s1, f);
    var s3 := Step(s2, c);
    var s4 := Step(s3, f);
    var s5 := Step(s4, c);
    var s6 := Step(s5, f);
    assert [f][1..] == [] && [c, f][1..] == [f] && [f, c, f][1..] == [c, f] && [c, f, c, f][1..] == [f, c, f];
    assert [f, c, f, c, f][1..] == [c, f, c, f] && [c, f, c, f, c, f][1..] == [f, c, f, c, f];
    assert Legal(1, s6, []) && Legal(1, s5, [f]) && Legal(1, s4, [c, f]) && Legal(1, s3, [f, c, f]);
    assert Legal(1, s2, [c, f, c, f]) && Legal(1, s1, [f, c, f, c, f]);
    assert Exec(s5, [f]) == s6 && Exec(s4, [c, f]) == s6 && Exec(s3, [f, c, f]) == s6;
    assert Exec(s2, [c, f, c, f]) == s6 && Exec(s1, [f, c, f, c, f]) == s6;
    assert Admissions(s5, [f]) == [];
    assert Admissions(s4, [c, f]) == [t] + Admissions(s5, [f]);
    assert Admissions(s3, [f, c, f]) == Admissions(s4, [c, f]);
    assert Admissions(s2, [c, f, c, f]) == [t] + Admissions(s3, [f, c, f]);
    assert Admissions(s1, [f, c, f, c, f]) == Admissions(s2, [c, f, c, f]);
    assert Admissions(s0, [c, f, c, f, c, f]) == [t] + Admissions(s1, [f, c, f, c, f]);
  }
}
