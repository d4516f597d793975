/** The JSON-RPC client: attempt loop, backoff, breaker bookkeeping, and chain-primary acquisition. */
module RpcClient {
  import opened Basics
  import opened Json
  import opened Numerals
  import opened Circuit
  import CanonicalJson

  datatype ErrorCode =
    NOT_FOUND | CHAIN_MISMATCH | PROVIDER_TIMEOUT | PROVIDER_RATE_LIMIT | PROVIDER_INVALID_RESPONSE | RPC_UNAVAILABLE

  datatype ProviderStatus = OK | DEGRADED | TIMEOUT | FAILED | UNKNOWN

  datatype ProviderError = ProviderError(message: string, code: ErrorCode, status: ProviderStatus, retryable: bool)

  /** What one HTTP attempt yields. */
  datatype Reply = TimedOut | NetworkError | Http(status: int, body: Body)

  datatype Body = Malformed | NonObject | Object(members: seq<Member>)

  /** `Raised` is an exception other than `ProviderError`, which nothing in the client catches. */
  datatype CallResult<+T> = Value(value: T) | Failing(error: ProviderError) | Raised

  /** How the attempt loop reads a reply: an answer, a failure that may be retried, or a stray exception. */
  datatype Outcome = Answer(result: Json) | Fault(error: ProviderError, retry: bool, seen: ProviderStatus) | Stray

  function Fail(message: string, code: ErrorCode, status: ProviderStatus, retryable: bool): Outcome {
    Fault(ProviderError(message, code, status, retryable), retryable,
          if code == PROVIDER_RATE_LIMIT then DEGRADED else if code == PROVIDER_TIMEOUT then TIMEOUT else FAILED)
  }

  /** `needle in hay`. */
  predicate Contains(hay: string, needle: string) {
    |needle| <= |hay| && (hay[..|needle|] == needle || Contains(hay[1..], needle))
  }

  /** `str(value)`: only strings are rendered, the text of other values is left abstract. */
  function Shown(v: Json, show: Json -> string): string {
    if v.Text? then v.s else show(v)
  }

  function GetOr(ms: seq<Member>, key: string, default: Json): Json {
    if Get(ms, key).Some? then Get(ms, key).value else default
  }

  /** `code in {429, -32005}` hashes the code, so an array or object there raises `TypeError`. */
  predicate LooksRateLimited(error: seq<Member>, show: Json -> string) {
    var code := GetOr(error, "code", Null);
    var message := Lower(Shown(GetOr(error, "message", Text("")), show));
    code == Int(429) || code == Int(-32005) || Contains(message, "rate") || Contains(message, "too many")
  }

  function ReadPayload(ms: seq<Member>, show: Json -> string): Outcome {
    match Get(ms, "error")
    case None => Answer(GetOr(ms, "result", Null))
    case Some(e) =>
      var error := if e.Obj? then e.members else [];
      var code := GetOr(error, "code", Null);
      var message := "RPC error " + Shown(GetOr(error, "code", Text("?")), show) + ": "
                     + Shown(GetOr(error, "message", Text("unknown error")), show);
      if code.Arr? || code.Obj? then Stray
      else if LooksRateLimited(error, show) then Fail(message, PROVIDER_RATE_LIMIT, DEGRADED, true)
      else Fail(message, RPC_UNAVAILABLE, FAILED, false)
  }

  function ReadReply(r: Reply, show: Json -> string): Outcome {
    match r
    case TimedOut => Fail("RPC call timed out.", PROVIDER_TIMEOUT, TIMEOUT, true)
    case NetworkError => Fail("RPC network error.", RPC_UNAVAILABLE, FAILED, true)
    case Http(status, body) =>
      if status == 429 then Fail("RPC rate limit.", PROVIDER_RATE_LIMIT, DEGRADED, true)
      else if !(200 <= status < 300) then Fail("RPC HTTP error.", RPC_UNAVAILABLE, FAILED, 500 <= status < 600)
      else
        match body
        case Malformed => Fail("RPC returned malformed JSON.", PROVIDER_INVALID_RESPONSE, FAILED, false)
        case NonObject => Fail("RPC returned a non-object JSON payload.", PROVIDER_INVALID_RESPONSE, FAILED, false)
        case Object(ms) => ReadPayload(ms, show)
  }

  predicate ReadOnly(rpcMethod: string) {
    rpcMethod == "eth_chainId" || rpcMethod == "eth_getTransactionByHash" || rpcMethod == "eth_getTransactionReceipt"
    || rpcMethod == "eth_getBlockByNumber" || rpcMethod == "eth_getBlockByHash" || rpcMethod == "eth_getLogs"
    || rpcMethod == "eth_call"
  }

  // ---- the attempt loop, as a function of the replies ----

  /** The n-th reply the network gives to this client, and what it shows for non-string JSON. */
  datatype World = World(replies: nat -> Reply, show: Json -> string)

  function OutcomeAt(w: World, n: nat): Outcome {
    ReadReply(w.replies(n), w.show)
  }

  predicate Retried(w: World, n: nat) {
    OutcomeAt(w, n).Fault? && OutcomeAt(w, n).retry
  }

  /** The attempts of a call that starts at reply `first`: the last one is not followed by a retry. */
  ghost predicate LastAttempt(w: World, first: nat, limit: nat, used: nat) {
    && 1 <= used <= limit
    && (forall n: nat :: first <= n < first + used - 1 ==> Retried(w, n))
    && (Retried(w, first + used - 1) ==> used == limit)
  }

  /** The network decides how many attempts a call makes. */
  lemma LastAttemptUnique(w: World, first: nat, limit: nat, a: nat, b: nat)
    requires LastAttempt(w, first, limit, a) && LastAttempt(w, first, limit, b)
    ensures a == b
  {
    assert Retried(w, first + a - 1) ==> a == limit;
    assert Retried(w, first + b - 1) ==> b == limit;
  }

  function Attempts(w: World, first: nat, limit: nat): (used: nat)
    requires limit >= 1
    ensures LastAttempt(w, first, limit, used)
    decreases limit
  {
    if limit == 1 || !Retried(w, first) then 1 else 1 + Attempts(w, first + 1, limit - 1)
  }

  function ResultOf(o: Outcome): CallResult<Json> {
    match o
    case Answer(v) => Value(v)
    case Fault(e, _, _) => Failing(e)
    case Stray => Raised
  }

  function Recorded(b: Breaker, r: CallResult<Json>, now: real): Breaker {
    match r
    case Value(_) => CLOSED
    case Failing(_) => Failed(b, now)
    case Raised => b
  }

  /** A stray exception leaves the status of the retried attempt before it, if there was one. */
  function StatusAfter(w: World, first: nat, used: nat, before: ProviderStatus): ProviderStatus
    requires used >= 1
  {
    match OutcomeAt(w, first + used - 1)
    case Answer(_) => OK
    case Fault(_, _, seen) => seen
    case Stray => if used >= 2 && Retried(w, first + used - 2) then OutcomeAt(w, first + used - 2).seen else before
  }

  // ---- backoff ----

  function Power2(n: nat): (p: nat)
    ensures p >= 1
  {
    if n == 0 then 1 else 2 * Power2(n - 1)
  }

  /** `min(0.05 * 2**attempt, 0.5)` seconds. */
  function Backoff(attempt: nat): real {
    if 0.05 * Power2(attempt) as real <= 0.5 then 0.05 * Power2(attempt) as real else 0.5
  }

  function TotalBackoff(sleeps: nat): real {
    if sleeps == 0 then 0.0 else TotalBackoff(sleeps - 1) + Backoff(sleeps - 1)
  }

  function BackoffBound(n: nat): real {
    if n <= 4 then 0.05 * (Power2(n) - 1) as real else 0.75 + 0.5 * (n - 4) as real
  }

  lemma {:induction false} Power2Grows(n: nat)
    requires n >= 4
    ensures Power2(n) >= 16
  {
    if n > 4 {
      Power2Grows(n - 1);
    } else {
      assert Power2(4) == 2 * Power2(3) && Power2(3) == 2 * Power2(2) && Power2(2) == 2 * Power2(1) && Power2(1) == 2;
    }
  }

  /** The sleeps of a call with n retries add up to the closed form, and fewer sleeps take less. */
  lemma {:induction false} BackoffClosedForm(n: nat)
    ensures TotalBackoff(n) == BackoffBound(n)
  {
    if n > 0 {
      BackoffClosedForm(n - 1);
      if n >= 5 {
        Power2Grows(n - 1);
        if n == 5 { assert Power2(4) == 16; }
      } else {
        assert Power2(1) == 2 && Power2(2) == 4 && Power2(3) == 8 && Power2(4) == 16;
      }
    }
  }

  lemma {:induction false} BackoffMonotone(m: nat, n: nat)
    requires m <= n
    ensures TotalBackoff(m) <= TotalBackoff(n)
    decreases n
  {
    if m < n {
      BackoffMonotone(m, n - 1);
    }
  }

  // ---- calls, one after the other ----

  /** The fields of a provider that its calls update. */
  datatype Client = Client(breaker: Breaker, status: ProviderStatus, requestId: nat, sent: nat)

  const CIRCUIT_OPEN :=
    ProviderError("RPC circuit breaker is open after repeated provider failures.", RPC_UNAVAILABLE, FAILED, true)

  function Limit(rpcMethod: string, maxRetries: nat): (n: nat)
    ensures 1 <= n <= maxRetries + 1
  {
    if ReadOnly(rpcMethod) then maxRetries + 1 else 1
  }

  /** One call: refused by an open circuit, or carried out up to its last attempt and recorded. */
  function AfterCall(w: World, maxRetries: nat, c: Client, rpcMethod: string, entered: real, finished: real)
    : (CallResult<Json>, Client)
  {
    if !Admits(c.breaker, entered) then (Failing(CIRCUIT_OPEN), c)
    else
      var used := Attempts(w, c.sent, Limit(rpcMethod, maxRetries));
      var r := ResultOf(OutcomeAt(w, c.sent + used - 1));
      (r, Client(Recorded(Checked(c.breaker, entered), r, finished), StatusAfter(w, c.sent, used, c.status),
                 c.requestId + 1, c.sent + used))
  }

  /** A call that is answered leaves the provider OK and the circuit closed. */
  lemma AnsweredIsOk(w: World, maxRetries: nat, c: Client, rpcMethod: string, entered: real, finished: real)
    ensures var (r, after) := AfterCall(w, maxRetries, c, rpcMethod, entered, finished);
      r.Value? ==> after.status == OK && after.breaker == CLOSED
  {
    hide ReadReply, Attempts, Admits, Retried;
  }

  /** The answers to some calls made in turn; the n-th is entered at times(2n) and finished at times(2n+1). */
  function Exchanges(w: World, maxRetries: nat, c: Client, methods: seq<string>, times: nat -> real)
    : (r: (seq<CallResult<Json>>, Client))
    ensures |r.0| == |methods|
  {
    if methods == [] then ([], c)
    else
      var n := |methods| - 1;
      var (answers, before) := Exchanges(w, maxRetries, c, methods[..n], times);
      var (answer, after) := AfterCall(w, maxRetries, before, methods[n], times(2 * n), times(2 * n + 1));
      (answers + [answer], after)
  }

  lemma OneMoreExchange(w: World, maxRetries: nat, c: Client, methods: seq<string>, rpcMethod: string,
                        times: nat -> real)
    ensures var (answers, before) := Exchanges(w, maxRetries, c, methods, times);
      var (answer, after) := AfterCall(w, maxRetries, before, rpcMethod, times(2 * |methods|),
                                       times(2 * |methods| + 1));
      Exchanges(w, maxRetries, c, methods + [rpcMethod], times) == (answers + [answer], after)
  {
    hide AfterCall;
    var more := methods + [rpcMethod];
    assert more[..|methods|] == methods && more[|methods|] == rpcMethod;
  }

  // ---- the client ----

  class JsonRpcProvider {
    const world: World
    const maxRetries: nat
    const expectedChainId: int
    var failureCount: nat
    var circuitOpenedAt: Option<real>
    var status: ProviderStatus
    var requestId: nat
    var sent: nat   // HTTP requests so far: the next reply is world.replies(sent)

    constructor (world: World, maxRetries: int, expectedChainId: int)
      ensures this.world == world && this.expectedChainId == expectedChainId
      ensures this.maxRetries == if maxRetries < 0 then 0 else maxRetries
      ensures State() == CLOSED && status == UNKNOWN && requestId == 0 && sent == 0
    {
      this.world := world;
      this.maxRetries := if maxRetries < 0 then 0 else maxRetries;
      this.expectedChainId := expectedChainId;
      failureCount, circuitOpenedAt, status, requestId, sent := 0, None, UNKNOWN, 0, 0;
    }

    function State(): Breaker
      reads this
    {
      Breaker(failureCount, circuitOpenedAt)
    }

    function View(): Client
      reads this
    {
      Client(State(), status, requestId, sent)
    }

    method CheckCircuit(now: real) returns (admitted: bool)
      modifies this`failureCount, this`circuitOpenedAt
      ensures admitted == Admits(old(State()), now)
      ensures State() == Checked(old(State()), now)
    {
      if circuitOpenedAt.None? {
        return true;
      }
      var elapsed := now - circuitOpenedAt.value;
      if elapsed >= COOLDOWN {
        circuitOpenedAt := None;
        failureCount := 0;
        return true;
      }
      return false;
    }

    method RecordFailure(now: real)
      modifies this`failureCount, this`circuitOpenedAt
      ensures State() == Failed(old(State()), now)
    {
      failureCount := failureCount + 1;
      if failureCount >= THRESHOLD {
        circuitOpenedAt := Some(now);
      }
    }

    method RecordSuccess()
      modifies this`failureCount, this`circuitOpenedAt
      ensures State() == CLOSED
    {
      failureCount := 0;
      circuitOpenedAt := None;
    }

    /** The loop of `_call_json_rpc`: attempts until an answer, a final failure, or the limit. */
    method RunAttempts(limit: nat, finished: real) returns (r: CallResult<Json>, attempts: nat, slept: real)
      requires limit >= 1
      modifies this`failureCount, this`circuitOpenedAt, this`status, this`sent
      ensures LastAttempt(world, old(sent), limit, attempts)
      ensures var last := OutcomeAt(world, old(sent) + attempts - 1);
        && r == ResultOf(last)
        && status == StatusAfter(world, old(sent), attempts, old(status))
      ensures State() == Recorded(old(State()), r, finished)
      ensures sent == old(sent) + attempts && slept == TotalBackoff(attempts - 1)
    {
      hide ReadReply, Backoff;
      attempts, slept, r := 0, 0.0, Raised;
      while attempts < limit
        invariant 0 <= attempts < limit
        invariant sent == old(sent) + attempts && State() == old(State())
        invariant forall n: nat :: old(sent) <= n < sent ==> Retried(world, n)
        invariant attempts == 0 ==> status == old(status)
        invariant attempts > 0 ==> Retried(world, sent - 1) && status == OutcomeAt(world, sent - 1).seen
        invariant slept == TotalBackoff(attempts)
      {
        var outcome := OutcomeAt(world, sent);
        sent := sent + 1;
        match outcome {
          case Answer(v) =>
            status := OK;
            RecordSuccess();
            return Value(v), attempts + 1, slept;
          case Stray =>
            return Raised, attempts + 1, slept;
          case Fault(error, retry, seen) =>
            status := seen;
            if retry && attempts < limit - 1 {
              slept := slept + Backoff(attempts);
              attempts := attempts + 1;
            } else {
              RecordFailure(finished);
              return Failing(error), attempts + 1, slept;
            }
        }
      }
      assert false;   // the code after the loop is never reached
    }

    /**
     One call, entered at one clock reading and finished at another.  A refused call touches
     nothing.  An admitted one makes between 1 and maxRetries+1 attempts, returns what its last
     attempt says and records exactly that one success or failure.
     */
    method Call(rpcMethod: string, entered: real, finished: real)
      returns (r: CallResult<Json>, attempts: nat, slept: real)
      modifies this
      ensures !Admits(old(State()), entered) ==>
        && r.Failing? && r.error.code == RPC_UNAVAILABLE && r.error.retryable && r.error.status == FAILED
        && attempts == 0 && slept == 0.0
        && State() == old(State()) && status == old(status) && requestId == old(requestId) && sent == old(sent)
      ensures Admits(old(State()), entered) ==>
        && LastAttempt(world, old(sent), if ReadOnly(rpcMethod) then maxRetries + 1 else 1, attempts)
        && r == ResultOf(OutcomeAt(world, old(sent) + attempts - 1))
        && State() == Recorded(Checked(old(State()), entered), r, finished)
        && requestId == old(requestId) + 1 && sent == old(sent) + attempts
        && slept == TotalBackoff(attempts - 1) <= BackoffBound(maxRetries)
      ensures (r, View()) == AfterCall(world, maxRetries, old(View()), rpcMethod, entered, finished)
    {
      hide OutcomeAt, ReadOnly, ResultOf, StatusAfter, Retried, Attempts, TotalBackoff;
      attempts, slept := 0, 0.0;
      var admitted := CheckCircuit(entered);
      if !admitted {
        return Failing(CIRCUIT_OPEN), attempts, slept;
      }
      requestId := requestId + 1;
      r, attempts, slept := RunAttempts(Limit(rpcMethod, maxRetries), finished);
      LastAttemptUnique(world, old(sent), Limit(rpcMethod, maxRetries), attempts,
                        Attempts(world, old(sent), Limit(rpcMethod, maxRetries)));
      BackoffClosedForm(maxRetries);
      BackoffMonotone(attempts - 1, maxRetries);
    }

    /** `chain_id` and `validate_chain_id`: a value other than the expected one is a failure. */
    method ValidateChainId(entered: real, finished: real) returns (r: CallResult<int>)
      modifies this
      ensures var (answer, client) := AfterCall(world, maxRetries, old(View()), "eth_chainId", entered, finished);
        && (r.Value? <==> answer.Value? && ChainIdOf(answer.value) == Some(expectedChainId))
        && (r.Value? ==> r.value == expectedChainId && status == OK)
        && (r.Raised? <==> answer.Raised?)
        && (answer.Failing? ==> r == Failing(answer.error))
        && (answer.Value? && !r.Value? ==> r == Failing(WrongChain(answer.value)))
        && View() == (if answer.Value? && r == Failing(CHAIN_DIFFERS) then client.(status := FAILED) else client)
        && (answer.Value? ==> JudgesChain(answer.value, expectedChainId, r, status))
    {
      hide Attempts, StatusAfter, Recorded, OutcomeAt, Admits, ChainIdOf, SpellsChain, SpellsNoChain;
      AnsweredIsOk(world, maxRetries, View(), "eth_chainId", entered, finished);
      var answer, _, _ := Call("eth_chainId", entered, finished);
      match answer {
        case Failing(e) => return Failing(e);
        case Raised => return Raised;
        case Value(v) =>
          ChainIdMeaning(v);
          var actual := ChainIdOf(v);
          if actual.None? {
            return Failing(NO_CHAIN_ID);
          }
          if actual.value != expectedChainId {
            status := FAILED;
            return Failing(CHAIN_DIFFERS);
          }
          return Value(actual.value);
      }
    }

    /** `acquire`: which calls are made, and what their answers turn into. */
    method Acquire(txHash: string, times: nat -> real, info: EndpointInfo)
      returns (r: CallResult<Json>, ghost methods: seq<string>)
      modifies this
      ensures var (answers, client) := Exchanges(world, maxRetries, old(View()), methods, times);
        && Made(answers, methods, expectedChainId)
        && Concludes(answers, expectedChainId, Lower(txHash), info, r)
        && View().(status := OK) == client.(status := OK)
      ensures r.Value? ==> status == if Field(r.value, "receipt") != Null then OK else DEGRADED
    {
      hide Exchanges, AfterCall, Field, GetOr, ChainIdOf, BlockMethod, Payload, LastAttempt, OutcomeAt, TotalBackoff,
        BackoffBound, Recorded, Checked, Admits, ResultOf, ReadOnly, JudgesChain;
      var tx := Lower(txHash);
      FirstExchange(world, maxRetries, View(), "eth_chainId", times);
      methods := ["eth_chainId"];
      var chain := ValidateChainId(times(0), times(1));
      match chain {
        case Failing(e) => return Failing(e), methods;
        case Raised => return Raised, methods;
        case Value(_) =>
      }
      OneMoreExchange(world, maxRetries, old(View()), methods, "eth_getTransactionByHash", times);
      methods := methods + ["eth_getTransactionByHash"];
      var transaction, _, _ := Call("eth_getTransactionByHash", times(2), times(3));
      if !transaction.Value? {
        return transaction, methods;
      }
      if transaction.value == Null {
        return Failing(TransactionNotFound(tx, info.network)), methods;
      }
      OneMoreExchange(world, maxRetries, old(View()), methods, "eth_getTransactionReceipt", times);
      methods := methods + ["eth_getTransactionReceipt"];
      var receipt, _, _ := Call("eth_getTransactionReceipt", times(4), times(5));
      if !receipt.Value? {
        return receipt, methods;
      }
      if receipt.value == Null {
        status := DEGRADED;
        PayloadFields(info, expectedChainId, tx, transaction.value, Null, Null);
        return Value(Payload(info, expectedChainId, tx, transaction.value, Null, Null)), methods;
      }
      if !receipt.value.Obj? {
        return Raised, methods;   // `receipt.get` on something that is not a dict
      }
      var blockNumber := Field(receipt.value, "blockNumber");
      var block := Null;
      if Truthy(blockNumber) {
        OneMoreExchange(world, maxRetries, old(View()), methods, BlockMethod(blockNumber), times);
        methods := methods + [BlockMethod(blockNumber)];
        var found, _, _ := Call(BlockMethod(blockNumber), times(6), times(7));
        if !found.Value? {
          return found, methods;
        }
        block := found.value;
      }
      status := OK;
      PayloadFields(info, expectedChainId, tx, transaction.value, receipt.value, block);
      return Value(Payload(info, expectedChainId, tx, transaction.value, receipt.value, block)), methods;
    }
  }

  lemma FirstExchange(w: World, maxRetries: nat, c: Client, rpcMethod: string, times: nat -> real)
    ensures var (answer, after) := AfterCall(w, maxRetries, c, rpcMethod, times(0), times(1));
      Exchanges(w, maxRetries, c, [rpcMethod], times) == ([answer], after)
  {
    hide AfterCall;
    var methods := [rpcMethod];
    var (answer, after) := AfterCall(w, maxRetries, c, rpcMethod, times(0), times(1));
    assert methods[..0] == [] && Exchanges(w, maxRetries, c, methods[..0], times) == ([], c);
    assert [] + [answer] == [answer];
  }

  const NO_CHAIN_ID :=
    ProviderError("RPC returned invalid or missing eth_chainId value.", PROVIDER_INVALID_RESPONSE, FAILED, false)

  const CHAIN_DIFFERS := ProviderError("RPC endpoint chain mismatch.", CHAIN_MISMATCH, FAILED, false)

  function WrongChain(v: Json): ProviderError {
    if ChainIdOf(v).Some? then CHAIN_DIFFERS else NO_CHAIN_ID
  }

  function TransactionNotFound(tx: string, network: string): ProviderError {
    ProviderError("Transaction " + tx + " not found on " + network + ".", NOT_FOUND, FAILED, false)
  }

  // ---- what an acquisition asks, and what it concludes ----

  predicate ExpectedChain(answer: CallResult<Json>, chainId: int) {
    answer.Value? && ChainIdOf(answer.value) == Some(chainId)
  }

  predicate Found(answer: CallResult<Json>) {
    answer.Value? && answer.value != Null
  }

  /** A receipt that is a dict and names its block. */
  predicate Mined(answer: CallResult<Json>) {
    answer.Value? && answer.value.Obj? && Truthy(Field(answer.value, "blockNumber"))
  }

  /** The chain id first; then the transaction, its receipt and its block, each only if the one before was there. */
  predicate Made(answers: seq<CallResult<Json>>, methods: seq<string>, chainId: int) {
    && 1 <= |answers| == |methods| <= 4
    && methods[0] == "eth_chainId"
    && (|answers| > 1 <==> ExpectedChain(answers[0], chainId))
    && (|answers| > 1 ==> methods[1] == "eth_getTransactionByHash" && (|answers| > 2 <==> Found(answers[1])))
    && (|answers| > 2 ==> methods[2] == "eth_getTransactionReceipt" && (|answers| > 3 <==> Mined(answers[2])))
    && (|answers| > 3 ==> methods[3] == BlockMethod(Field(answers[2].value, "blockNumber")))
  }

  /** The result as the answers determine it. */
  predicate Concludes(answers: seq<CallResult<Json>>, chainId: int, tx: string, info: EndpointInfo, r: CallResult<Json>)
    requires answers != []
  {
    var last := answers[|answers| - 1];
    if last.Failing? then r == Failing(last.error)
    else if last.Raised? then r == Raised
    else if |answers| == 1 then r == Failing(WrongChain(last.value))
    else if |answers| == 2 then r == Failing(TransactionNotFound(tx, info.network))
    else if answers[1].Value? && answers[2].Value? then
      var transaction, receipt := answers[1].value, answers[2].value;
      if receipt != Null && !receipt.Obj? then r == Raised
      else r == Value(Payload(info, chainId, tx, transaction, receipt, if |answers| > 3 then last.value else Null))
    else false
  }

  /** A bool is an int to Python. */
  function ChainIdOf(v: Json): Option<int> {
    match v
    case Text(s) => ParseSignedHex(s)
    case Int(n) => Some(n)
    case Bool(b) => Some(if b then 1 else 0)
    case _ => None
  }

  /** The ways an endpoint may write its chain id: a number, or its digits in base 16 as `int(text, 16)` takes them. */
  ghost predicate SpellsChain(v: Json, n: int) {
    v == Int(n) || (v.Text? && (HexNumeral(v.s, n) || (n >= 0 && Lower(v.s) == "0x" + ToText(n, 16))))
  }

  ghost predicate SpellsNoChain(v: Json) {
    v.Null? || v.Arr? || v.Obj? || (v.Text? && forall n :: !HexNumeral(v.s, n))
  }

  /** The expected chain is accepted, another one is a mismatch, and what is no number is an invalid response. */
  ghost predicate JudgesChain(v: Json, chainId: int, r: CallResult<int>, status: ProviderStatus) {
    && (forall n :: SpellsChain(v, n) ==>
          if n == chainId then r == Value(n)
          else r.Failing? && r.error.code == CHAIN_MISMATCH && !r.error.retryable && status == FAILED)
    && (SpellsNoChain(v) ==> r.Failing? && r.error.code == PROVIDER_INVALID_RESPONSE)
  }

  lemma ChainIdMeaning(v: Json)
    ensures forall n :: SpellsChain(v, n) ==> ChainIdOf(v) == Some(n)
    ensures SpellsNoChain(v) ==> ChainIdOf(v) == None
  {
    hide HexNumeral, ParseSignedHex, ToText;
    if v.Text? {
      forall n | SpellsChain(v, n) ensures ParseSignedHex(v.s) == Some(n) {
        if !HexNumeral(v.s, n) {
          PrefixedDigitsWrite(v.s, n);
        }
        SignedHexReads(v.s, n);
      }
      if ParseSignedHex(v.s).Some? {
        SignedHexReads(v.s, ParseSignedHex(v.s).value);
      }
    }
  }

  /** An endpoint of another chain, or without a readable chain id, is asked nothing further. */
  lemma WrongChainStops(answers: seq<CallResult<Json>>, methods: seq<string>, chainId: int, tx: string,
                        info: EndpointInfo, r: CallResult<Json>)
    requires Made(answers, methods, chainId) && Concludes(answers, chainId, tx, info, r) && answers[0].Value?
    ensures forall n :: SpellsChain(answers[0].value, n) ==>
      if n == chainId then |answers| > 1 else |answers| == 1 && r.Failing? && r.error.code == CHAIN_MISMATCH
    ensures SpellsNoChain(answers[0].value) ==>
      |answers| == 1 && r.Failing? && r.error.code == PROVIDER_INVALID_RESPONSE
  {
    hide SpellsChain, SpellsNoChain, ChainIdOf, Payload;
    ChainIdMeaning(answers[0].value);
  }

  /** An integer is sent in hexadecimal. */
  function BlockIdentifier(v: Json): Option<string> {
    match v
    case Text(s) => Some(s)
    case Int(n) => Some(if n < 0 then "-0x" + ToText(-n, 16) else "0x" + ToText(n, 16))
    case Bool(b) => Some(if b then "0x1" else "0x0")
    case _ => None
  }

  function BlockMethod(numberOrHash: Json): string {
    var id := BlockIdentifier(numberOrHash);
    if id.Some? && IsHexHash(id.value) then "eth_getBlockByHash" else "eth_getBlockByNumber"
  }

  predicate IsHexHash(s: string) {
    |s| == 66 && StartsWith(s, "0x") && AllDigits(s[2..], 16)
  }

  /** The labels and the clock text that go into a payload. */
  datatype EndpointInfo = EndpointInfo(provider: string, network: string, endpointId: string, retrievedAt: string)

  /** The payload; without a receipt it carries a warning, and it never holds logs but the receipt's. */
  function Payload(info: EndpointInfo, chainId: int, tx: string, transaction: Json, receipt: Json, block: Json): Json {
    var logs := if receipt.Obj? then GetOr(receipt.members, "logs", Arr([])) else Arr([]);
    var warnings :=
      if receipt == Null then [Text("Receipt for " + tx + " not found; transaction may not be mined yet.")] else [];
    Obj([Member("provider", Text(info.provider)), Member("network", Text(info.network)),
         Member("endpoint_id", Text(info.endpointId)), Member("chain_id", Int(chainId)),
         Member("expected_chain_id", Int(chainId)),
         Member("request", Obj([Member("method", Text("acquire")), Member("tx_hash", Text(tx))])),
         Member("retrieved_at", Text(info.retrievedAt)), Member("transaction", transaction),
         Member("receipt", receipt), Member("block", block), Member("logs", logs), Member("warnings", Arr(warnings))])
  }

  predicate WarnsWithoutReceipt(warnings: seq<Json>, receipt: Json) {
    if receipt == Null then |warnings| == 1 && warnings[0].Text? else warnings == []
  }

  const KEY_LENGTHS := [8, 7, 11, 8, 17, 7, 12, 11, 7, 5, 4, 8]
  const THIRD_LETTERS := "otdapqtacogr"

  ghost predicate Shaped(ms: seq<Member>) {
    |ms| == 12 && forall i :: 0 <= i < 12 ==> |ms[i].key| == KEY_LENGTHS[i] && ms[i].key[2] == THIRD_LETTERS[i]
  }

  lemma PayloadIsShaped(info: EndpointInfo, chainId: int, tx: string, transaction: Json, receipt: Json, block: Json)
    ensures var p := Payload(info, chainId, tx, transaction, receipt, block); p.Obj? && Shaped(p.members)
  {
    hide GetOr;
  }

  lemma ShapedIsDistinct(ms: seq<Member>)
    requires Shaped(ms)
    ensures DistinctKeys(ms)
  {
    forall i, j | 0 <= i < j < 12 ensures ms[i].key != ms[j].key {
      assert KEY_LENGTHS[i] != KEY_LENGTHS[j] || THIRD_LETTERS[i] != THIRD_LETTERS[j];
    }
  }

  /** The twelve keys of a payload differ in length or third letter. */
  lemma PayloadKeysDistinct(info: EndpointInfo, chainId: int, tx: string, transaction: Json, receipt: Json, block: Json)
    ensures DistinctKeys(Payload(info, chainId, tx, transaction, receipt, block).members)
  {
    hide Payload, Shaped, DistinctKeys;
    PayloadIsShaped(info, chainId, tx, transaction, receipt, block);
    ShapedIsDistinct(Payload(info, chainId, tx, transaction, receipt, block).members);
  }

  lemma PayloadMembers(info: EndpointInfo, chainId: int, tx: string, transaction: Json, receipt: Json, block: Json)
    ensures var p := Payload(info, chainId, tx, transaction, receipt, block);
      && p.Obj? && |p.members| == 12
      && p.members[3] == Member("chain_id", Int(chainId)) && p.members[4] == Member("expected_chain_id", Int(chainId))
      && p.members[7] == Member("transaction", transaction) && p.members[8] == Member("receipt", receipt)
      && p.members[9] == Member("block", block) && p.members[11].key == "warnings"
      && p.members[11].value.Arr? && WarnsWithoutReceipt(p.members[11].value.items, receipt)
  {
    hide Get, GetOr;
  }

  lemma PayloadFields(info: EndpointInfo, chainId: int, tx: string, transaction: Json, receipt: Json, block: Json)
    ensures var p := Payload(info, chainId, tx, transaction, receipt, block);
      && p.Obj?
      && Field(p, "transaction") == transaction && Field(p, "receipt") == receipt && Field(p, "block") == block
      && Field(p, "chain_id") == Field(p, "expected_chain_id") == Int(chainId)
      && Field(p, "warnings").Arr? && WarnsWithoutReceipt(Field(p, "warnings").items, receipt)
  {
    hide Get, Payload, DistinctKeys;
    PayloadMembers(info, chainId, tx, transaction, receipt, block);
    PayloadKeysDistinct(info, chainId, tx, transaction, receipt, block);
    var ms := Payload(info, chainId, tx, transaction, receipt, block).members;
    CanonicalJson.GetAt(ms, 3);
    CanonicalJson.GetAt(ms, 4);
    CanonicalJson.GetAt(ms, 7);
    CanonicalJson.GetAt(ms, 8);
    CanonicalJson.GetAt(ms, 9);
    CanonicalJson.GetAt(ms, 11);
  }

  /** The labels of a payload, the transaction asked for, and the receipt's logs. */
  lemma PayloadLabels(info: EndpointInfo, chainId: int, tx: string, transaction: Json, receipt: Json, block: Json)
    ensures var p := Payload(info, chainId, tx, transaction, receipt, block);
      && Field(p, "provider") == Text(info.provider) && Field(p, "network") == Text(info.network)
      && Field(p, "endpoint_id") == Text(info.endpointId) && Field(p, "retrieved_at") == Text(info.retrievedAt)
      && Field(p, "request") == Obj([Member("method", Text("acquire")), Member("tx_hash", Text(tx))])
      && Field(p, "logs") ==
          if receipt.Obj? && Get(receipt.members, "logs").Some? then Field(receipt, "logs") else Arr([])
  {
    hide Get, DistinctKeys, WarnsWithoutReceipt;
    PayloadKeysDistinct(info, chainId, tx, transaction, receipt, block);
    var ms := Payload(info, chainId, tx, transaction, receipt, block).members;
    CanonicalJson.GetAt(ms, 0);
    CanonicalJson.GetAt(ms, 1);
    CanonicalJson.GetAt(ms, 2);
    CanonicalJson.GetAt(ms, 5);
    CanonicalJson.GetAt(ms, 6);
    CanonicalJson.GetAt(ms, 10);
  }

  /**
   What a payload vouches for: the chain id was asked first and is the expected one, the
   transaction is what the second call answered, and the receipt, if any, what the third did.
   */
  lemma PayloadIsWhatWasAnswered(answers: seq<CallResult<Json>>, methods: seq<string>, chainId: int, tx: string,
                                 info: EndpointInfo, r: CallResult<Json>)
    requires Made(answers, methods, chainId) && Concludes(answers, chainId, tx, info, r)
    ensures r.Value? <==>
      && |answers| >= 3 && answers[2].Value? && (answers[2].value == Null || answers[2].value.Obj?)
      && answers[|answers| - 1].Value?
    ensures r.Value? ==>
      && answers[0].Value? && ChainIdOf(answers[0].value) == Some(chainId) && Field(r.value, "chain_id") == Int(chainId)
      && answers[1] == Value(Field(r.value, "transaction")) && Field(r.value, "transaction") != Null
      && answers[2] == Value(Field(r.value, "receipt"))
      && (Field(r.value, "block") != Null ==> |answers| == 4 && answers[3] == Value(Field(r.value, "block")))
  {
    hide Field, Payload, ChainIdOf, BlockMethod, TransactionNotFound;
    if |answers| >= 3 && answers[2].Value? {
      var block := if |answers| > 3 && answers[3].Value? then answers[3].value else Null;
      PayloadFields(info, chainId, tx, answers[1].value, answers[2].value, block);
    }
  }

  /** A transaction the node does not know is reported in words that acquisition recognises. */
  lemma NotFoundSaysSo(tx: string, network: string)
    ensures Contains(TransactionNotFound(tx, network).message, "not found")
  {
    var before, after := "Transaction " + tx + " ", " on " + network + ".";
    ContainedIsFound(before, "not found", after);
    assert before + "not found" + after == TransactionNotFound(tx, network).message;
  }

  // ---- which replies are retried ----

  /** `Contains` finds the needle at some place ... */
  lemma {:induction false} ContainedSomewhere(hay: string, needle: string) returns (before: string, after: string)
    requires Contains(hay, needle)
    ensures hay == before + needle + after
  {
    if hay[..|needle|] == needle {
      before, after := [], hay[|needle|..];
    } else {
      var b, a := ContainedSomewhere(hay[1..], needle);
      before, after := [hay[0]] + b, a;
      assert hay == [hay[0]] + hay[1..];
    }
  }

  /** ... and misses none. */
  lemma {:induction false} ContainedIsFound(before: string, needle: string, after: string)
    ensures Contains(before + needle + after, needle)
  {
    var hay := before + needle + after;
    if before == [] {
      assert hay[..|needle|] == needle;
    } else {
      assert hay[1..] == before[1..] + needle + after;
      ContainedIsFound(before[1..], needle, after);
    }
  }

  /** The error object of a JSON answer, as the client reads it. */
  function ErrorObject(ms: seq<Member>): seq<Member> {
    if Field(Obj(ms), "error").Obj? then Field(Obj(ms), "error").members else []
  }

  /**
   Retried are time-outs, network errors, HTTP 429 and 5xx, and error answers that look rate
   limited.  Every other reply is final, and only an object without an `error` member succeeds.
   */
  lemma RetryPolicy(r: Reply, show: Json -> string)
    ensures ReadReply(r, show).Answer? <==>
      r.Http? && 200 <= r.status < 300 && r.body.Object? && Get(r.body.members, "error").None?
    ensures ReadReply(r, show).Fault? && ReadReply(r, show).retry <==>
      || r.TimedOut? || r.NetworkError?
      || (r.Http? && (r.status == 429 || 500 <= r.status < 600))
      || (r.Http? && 200 <= r.status < 300 && r.body.Object? && Get(r.body.members, "error").Some?
          && !ReadReply(r, show).Stray? && LooksRateLimited(ErrorObject(r.body.members), show))
    ensures ReadReply(r, show).Fault? ==>
      var f := ReadReply(r, show);
      && f.retry == f.error.retryable
      && (f.seen == DEGRADED <==> f.error.code == PROVIDER_RATE_LIMIT)
      && f.error.status == f.seen
      && (f.seen == TIMEOUT <==> r.TimedOut?)
      && (f.error.code == PROVIDER_TIMEOUT <==> r.TimedOut?)
      && (f.error.code == PROVIDER_RATE_LIMIT <==>
            r.Http? && (r.status == 429 || (200 <= r.status < 300 && r.body.Object? && f.retry)))
      && (f.error.code == PROVIDER_INVALID_RESPONSE <==> r.Http? && 200 <= r.status < 300 && !r.body.Object?)
  {
    hide Contains;
  }

  ghost predicate Mentions(text: string, word: string) {
    exists before, after :: Splits(text, before, word, after)
  }

  predicate Splits(text: string, before: string, word: string, after: string) {
    Lower(text) == before + word + after
  }

  lemma ContainsMentions(text: string, word: string)
    ensures Contains(Lower(text), word) <==> Mentions(text, word)
  {
    hide Contains;
    if Contains(Lower(text), word) {
      var before, after := ContainedSomewhere(Lower(text), word);
      assert Splits(text, before, word, after);
    }
    if before, after :| Splits(text, before, word, after) {
      ContainedIsFound(before, word, after);
    }
  }

  /**
   Which error answers are taken for rate limits, and so retried: the codes 429 and -32005, and any
   message in which "rate" or "too many" stands, in whatever letter case.  All others are final.
   */
  lemma RateLimitAnswers(code: Json, message: string, show: Json -> string)
    requires !code.Arr? && !code.Obj?
    ensures var body := Object([Member("error", Obj([Member("code", code), Member("message", Text(message))]))]);
      var o := ReadReply(Http(200, body), show);
      && o.Fault?
      && (o.retry <==>
            code == Int(429) || code == Int(-32005) || Mentions(message, "rate") || Mentions(message, "too many"))
      && o.error.code == (if o.retry then PROVIDER_RATE_LIMIT else RPC_UNAVAILABLE)
      && Contains(o.error.message, message)
  {
    hide Contains, Mentions;
    var error := [Member("code", code), Member("message", Text(message))];
    var ms := [Member("error", Obj(error))];
    assert Get(ms, "error") == Some(Obj(error));
    assert |error[0].key| == 4 && |error[1].key| == 7;
    CanonicalJson.GetAt(error, 0);
    CanonicalJson.GetAt(error, 1);
    ContainedIsFound("RPC error " + Shown(code, show) + ": ", message, "");
    assert "RPC error " + Shown(code, show) + ": " + message + "" == "RPC error " + Shown(code, show) + ": " + message;
    ContainsMentions(message, "rate");
    ContainsMentions(message, "too many");
  }

  lemma {:induction false} AllRetried(w: World, first: nat, limit: nat)
    requires limit >= 1 && forall n: nat :: Retried(w, n)
    ensures Attempts(w, first, limit) == limit
    decreases limit
  {
    assert Retried(w, first);
    if limit > 1 {
      AllRetried(w, first + 1, limit - 1);
    }
  }

  /**
   Against replies that are always retried, the seven reading methods use all attempts and any
   other one a single one.
   */
  lemma AttemptsByMethod(w: World, maxRetries: nat, c: Client, rpcMethod: string, entered: real, finished: real)
    requires Admits(c.breaker, entered) && forall n: nat :: Retried(w, n)
    ensures AfterCall(w, maxRetries, c, rpcMethod, entered, finished).1.sent - c.sent ==
      if rpcMethod in {"eth_chainId", "eth_getTransactionByHash", "eth_getTransactionReceipt", "eth_getBlockByNumber",
                       "eth_getBlockByHash", "eth_getLogs", "eth_call"}
      then maxRetries + 1 else 1
  {
    hide Retried, OutcomeAt, StatusAfter;
    AllRetried(w, c.sent, Limit(rpcMethod, maxRetries));
  }

  /** A block is asked for by hash when the receipt names it by 64 digits, and by number otherwise. */
  lemma BlockAsked(digits: string, n: nat)
    requires AllDigits(digits, 16) && n < Pow(16, 63)
    ensures BlockMethod(Text("0x" + digits)) == if |digits| == 64 then "eth_getBlockByHash" else "eth_getBlockByNumber"
    ensures BlockMethod(Int(n)) == "eth_getBlockByNumber"
  {
    hide Pow, ToText;
    DigitCount(n, 16, 63);
    assert ("0x" + digits)[2..] == digits && ("0x" + digits)[..2] == "0x";
  }

  // ---- what a call records ----

  /** Only an RPC error object whose code is an array or object escapes the bookkeeping. */
  lemma StrayReply(r: Reply, show: Json -> string)
    ensures ReadReply(r, show).Stray? <==>
      && r.Http? && 200 <= r.status < 300 && r.body.Object?
      && var e := Field(Obj(r.body.members), "error");
      var code := Field(e, "code");
      code.Arr? || code.Obj?
  {
  }
}
