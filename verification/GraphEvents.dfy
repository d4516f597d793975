/** Which Graph events are corroborated, and which swaps are compared, in terms of the JSON they come as. */
module GraphEvents {
  import opened Basics
  import opened Json
  import opened Numerals
  import opened Reconciliation
  import opened ReconciliationLaws

  /** The value is text, and this text in lower case. */
  predicate Says(v: Json, s: string) {
    v.Text? && Lower(v.s) == s
  }

  predicate Missing(ms: seq<Member>, key: string) {
    Get(ms, key) == None || Get(ms, key) == Some(Null)
  }

  predicate Holds(ms: seq<Member>, key: string, v: Json) {
    Get(ms, key) == Some(v)
  }

  /** `v` is the text itself, or a dict that has it under "id". */
  ghost predicate Identifies(v: Json, s: string) {
    Says(v, s) || (v.Obj? && exists id :: Holds(v.members, "id", id) && Says(id, s))
  }

  /** The event's own transaction hash, or if it has none the id of its transaction. */
  ghost predicate ClaimsHash(event: seq<Member>, hash: string) {
    if Missing(event, "transactionHash") then exists v :: Holds(event, "transaction", v) && Identifies(v, hash)
    else exists v :: Holds(event, "transactionHash", v) && Says(v, hash)
  }

  /** A value that `or` passes over. */
  predicate PassedOver(ms: seq<Member>, key: string) {
    match Get(ms, key)
    case None => true
    case Some(v) => v == Null || v == Bool(false) || v == Int(0) || v == Text("") || v == Arr([]) || v == Obj([])
  }

  /** The event's address, else its contractAddress, else (when that is missing too) the id of its pool. */
  ghost predicate ClaimsContract(event: seq<Member>, contract: string) {
    if !PassedOver(event, "address") then exists v :: Holds(event, "address", v) && Says(v, contract)
    else if !Missing(event, "contractAddress") then exists v :: Holds(event, "contractAddress", v) && Says(v, contract)
    else exists v :: Holds(event, "pool", v) && Identifies(v, contract)
  }

  /** The number read from the value of a key; a number behind a capital 0X is not. */
  predicate Numbers(ms: seq<Member>, key: string, n: int) {
    match Get(ms, key)
    case None => false
    case Some(v) => !CapitalPrefix(v) && Written(v) == Some(n)
  }

  /** The event's own block number, or if it has none that of its transaction. */
  ghost predicate ClaimsBlock(event: seq<Member>, n: int) {
    if Missing(event, "blockNumber") then
      exists v :: Holds(event, "transaction", v) && v.Obj? && Numbers(v.members, "blockNumber", n)
    else Numbers(event, "blockNumber", n)
  }

  /** The log's value where it has one, else the receipt's. */
  function FromLog(log: seq<Member>, receipt: seq<Member>, key: string): Json {
    if PassedOver(log, key) then Field(Obj(receipt), key) else Get(log, key).value
  }

  /** The log agrees with everything the event says beyond hash, contract and index. */
  ghost predicate AgreesOtherwise(event: seq<Member>, receipt: seq<Member>, log: seq<Member>) {
    && (forall n :: ClaimsBlock(event, n) ==>
          && !CapitalPrefix(FromLog(log, receipt, "blockNumber"))
          && Written(FromLog(log, receipt, "blockNumber")) == Some(n))
    && (forall s :: s != "" && Says(Field(Obj(event), "blockHash"), s) ==> Says(FromLog(log, receipt, "blockHash"), s))
    && (forall s :: s != "" && Says(Field(Obj(event), "data"), s) ==> Says(Field(Obj(log), "data"), s))
    && TopicsOf(event).Some? && TopicsOf(log).Some?
    && (TopicsOf(event).value != [] ==> TopicsOf(log) == TopicsOf(event))
  }

  // ---- what the extractors read ----

  lemma TruthyIffNotPassedOver(ms: seq<Member>, key: string)
    ensures Truthy(At(ms, key)) <==> !PassedOver(ms, key)
    ensures At(ms, key) == Null <==> Missing(ms, key)
  {
  }

  lemma IdSays(v: Json, s: string)
    ensures LowerOf(IdOf(v)) == Some(s) <==> Identifies(v, s)
  {
    if v.Obj? && Get(v.members, "id").Some? {
      assert Holds(v.members, "id", Get(v.members, "id").value);
    }
  }

  lemma HashClaimed(event: seq<Member>, hash: string)
    ensures GraphTxHash(event) == Some(hash) <==> ClaimsHash(event, hash)
  {
    hide Identifies, IdOf, Get;
    IdSays(At(event, "transaction"), hash);
    NullIdentifiesNothing(hash);
    if Get(event, "transactionHash").Some? {
      assert Holds(event, "transactionHash", Get(event, "transactionHash").value);
    }
    if Get(event, "transaction").Some? {
      assert Holds(event, "transaction", Get(event, "transaction").value);
    }
  }

  lemma NullIdentifiesNothing(s: string)
    ensures !Identifies(Null, s)
  {
  }

  lemma ContractClaimed(event: seq<Member>, contract: string)
    ensures GraphContract(event) == Some(contract) <==> ClaimsContract(event, contract)
  {
    hide Identifies, IdOf, Get, Truthy, PassedOver;
    IdSays(At(event, "pool"), contract);
    NullIdentifiesNothing(contract);
    TruthyIffNotPassedOver(event, "address");
    TruthyIffNotPassedOver(event, "contractAddress");
    assert PassedOver(event, "address") || Get(event, "address").Some? by { PassedOverIfAbsent(event, "address"); }
    if Get(event, "address").Some? {
      assert Holds(event, "address", Get(event, "address").value);
    }
    if Get(event, "contractAddress").Some? {
      assert Holds(event, "contractAddress", Get(event, "contractAddress").value);
    }
    if Get(event, "pool").Some? {
      assert Holds(event, "pool", Get(event, "pool").value);
    }
    assert !PassedOver(event, "address") ==> At(event, "address") != Null by { TruthyIsNotNull(event, "address"); }
  }

  lemma PassedOverIfAbsent(ms: seq<Member>, key: string)
    ensures PassedOver(ms, key) || Get(ms, key).Some?
  {
  }

  lemma TruthyIsNotNull(ms: seq<Member>, key: string)
    ensures !PassedOver(ms, key) ==> At(ms, key) != Null
  {
  }

  lemma NumberRead(ms: seq<Member>, key: string, n: int)
    ensures ToInt(At(ms, key)) == Some(n) <==> Numbers(ms, key, n)
  {
    hide Written, CapitalPrefix, ToInt;
    ReadUnlessCapital(At(ms, key));
    assert Written(Null) == None by { NullWritesNothing(); }
  }

  lemma NullWritesNothing()
    ensures Written(Null) == None && !CapitalPrefix(Null)
  {
  }

  lemma BlockClaimed(event: seq<Member>, n: int)
    ensures GraphBlock(event) == Some(n) <==> ClaimsBlock(event, n)
  {
    hide Numbers, ToInt, Get;
    NumberRead(event, "blockNumber", n);
    var tx := At(event, "transaction");
    if tx.Obj? {
      NumberRead(tx.members, "blockNumber", n);
    }
    assert ToInt(Null) == None by { NullIsSilent(); }
    if Get(event, "transaction").Some? {
      assert Holds(event, "transaction", Get(event, "transaction").value);
    }
  }

  lemma FromLogRead(log: seq<Member>, receipt: seq<Member>, key: string)
    ensures OrElse(At(log, key), At(receipt, key)) == FromLog(log, receipt, key)
  {
    TruthyIffNotPassedOver(log, key);
  }

  lemma SaysRead(v: Json, s: string)
    ensures LowerOf(v) == Some(s) <==> Says(v, s)
  {
  }

  /** Topics of an array, of nothing, of text and of a dict; anything else raises. */
  lemma TopicsRead(ms: seq<Member>)
    ensures Get(ms, "topics") == None ==> TopicsOf(ms) == Some([])
    ensures match Get(ms, "topics")
      case Some(Arr(xs)) =>
        TopicsOf(ms).Some? && |TopicsOf(ms).value| == |xs| && forall i :: 0 <= i < |xs| ==>
          && (xs[i].Text? ==> TopicsOf(ms).value[i] == Some(Lower(xs[i].s)))
          && (!xs[i].Text? ==> TopicsOf(ms).value[i] == None)
      case Some(Text(s)) => TopicsOf(ms).Some? && |TopicsOf(ms).value| == |s|
      case Some(Obj(ns)) => TopicsOf(ms).Some? && |TopicsOf(ms).value| == |ns|
      case Some(_) => TopicsOf(ms) == None
      case None => true
  {
  }

  // ---- when an event is corroborated ----

  /** The position of the first log that carries the number as its index. */
  ghost predicate FirstWithIndex(logs: seq<Json>, n: int, k: nat) {
    && k < |logs| && logs[k].Obj? && Numbers(logs[k].members, "logIndex", n)
    && forall j :: 0 <= j < k ==> logs[j].Obj? && !Numbers(logs[j].members, "logIndex", n)
  }

  lemma FirstMatchIsFirst(logs: seq<Json>, n: int, k: nat)
    ensures FirstMatch(logs, n, k) <==> FirstWithIndex(logs, n, k)
  {
    hide Numbers, ToInt, At;
    forall j | 0 <= j < |logs| && logs[j].Obj?
      ensures HasIndex(logs[j], n) <==> Numbers(logs[j].members, "logIndex", n)
    {
      NumberRead(logs[j].members, "logIndex", n);
    }
  }

  lemma AgreementRead(event: seq<Member>, receipt: seq<Member>, log: seq<Member>, hash: string, contract: string)
    requires GraphTxHash(event) == Some(hash) && GraphContract(event) == Some(contract)
    ensures Agrees(event, receipt, log) <==>
      && Says(Field(Obj(receipt), "transactionHash"), hash) && Says(Field(Obj(log), "address"), contract)
      && AgreesOtherwise(event, receipt, log)
  {
    hide GraphTxHash, GraphContract, GraphBlock, ToInt, Written, CapitalPrefix, FromLog, ClaimsBlock, TopicsOf, Field,
      Truthy, LowerOf, Says;
    SaysRead(At(receipt, "transactionHash"), hash);
    SaysRead(At(log, "address"), contract);
    FromLogRead(log, receipt, "blockNumber");
    FromLogRead(log, receipt, "blockHash");
    ReadUnlessCapital(FromLog(log, receipt, "blockNumber"));
    forall n ensures GraphBlock(event) == Some(n) <==> ClaimsBlock(event, n) { BlockClaimed(event, n); }
    forall s ensures LowerOf(At(event, "blockHash")) == Some(s) <==> Says(At(event, "blockHash"), s) {
      SaysRead(At(event, "blockHash"), s);
    }
    forall s ensures LowerOf(At(event, "data")) == Some(s) <==> Says(At(event, "data"), s) {
      SaysRead(At(event, "data"), s);
    }
    var given := FromLog(log, receipt, "blockHash");
    forall s ensures LowerOf(given) == Some(s) <==> Says(given, s) { SaysRead(given, s); }
    forall s ensures LowerOf(At(log, "data")) == Some(s) <==> Says(At(log, "data"), s) { SaysRead(At(log, "data"), s); }
    var claimed := GraphBlock(event);
    assert claimed.Some? ==> ClaimsBlock(event, claimed.value);
    var h := LowerOf(At(event, "blockHash"));
    assert h.Some? ==> Says(At(event, "blockHash"), h.value);
    var d := LowerOf(At(event, "data"));
    assert d.Some? ==> Says(At(event, "data"), d.value);
  }

  lemma CorroboratedAmong(event: seq<Member>, receipt: seq<Member>, logs: seq<Json>, ids: seq<string>)
    requires Get(receipt, "logs") == Some(Arr(logs))
    ensures var r := Outcome(event, receipt, ids);
      r.Some? && r.value.status == CORROBORATED <==>
        exists hash, contract, n, k: nat :: Corroborates(event, receipt, logs, hash, contract, n, k)
  {
    hide GraphTxHash, GraphContract, ToInt, Outcome, Agrees, AgreesOtherwise, ClaimsHash, ClaimsContract, Numbers,
      FirstMatch, FirstWithIndex;
    CorroboratedMeansAgrees(event, receipt, ids);
    assert LogsOf(receipt) == Some(logs);
    forall s ensures GraphTxHash(event) == Some(s) <==> ClaimsHash(event, s) { HashClaimed(event, s); }
    forall s ensures GraphContract(event) == Some(s) <==> ClaimsContract(event, s) { ContractClaimed(event, s); }
    forall n ensures ToInt(At(event, "logIndex")) == Some(n) <==> Numbers(event, "logIndex", n) {
      NumberRead(event, "logIndex", n);
    }
    forall n, k: nat ensures FirstMatch(logs, n, k) <==> FirstWithIndex(logs, n, k) { FirstMatchIsFirst(logs, n, k); }
    if Identified(event) {
      var hash, contract := GraphTxHash(event).value, GraphContract(event).value;
      var n := ToInt(At(event, "logIndex")).value;
      forall k: nat | FirstMatch(logs, n, k) ensures k < |logs| && logs[k].Obj? { MatchInRange(logs, n, k); }
      forall k: nat | k < |logs| && logs[k].Obj? && FirstMatch(logs, n, k)
        ensures Agrees(event, receipt, logs[k].members) <==> Corroborates(event, receipt, logs, hash, contract, n, k)
      {
        AgreementRead(event, receipt, logs[k].members, hash, contract);
      }
    }
  }

  lemma MatchInRange(logs: seq<Json>, n: int, k: nat)
    requires FirstMatch(logs, n, k)
    ensures k < |logs| && logs[k].Obj?
  {
  }

  ghost predicate Corroborates(event: seq<Member>, receipt: seq<Member>, logs: seq<Json>, hash: string,
                               contract: string,
                               n: int, k: nat)
  {
    && ClaimsHash(event, hash) && hash != "" && ClaimsContract(event, contract) && contract != ""
    && Numbers(event, "logIndex", n) && FirstWithIndex(logs, n, k)
    && k < |logs| && logs[k].Obj?
    && Says(Field(Obj(receipt), "transactionHash"), hash) && Says(Field(Obj(logs[k].members), "address"), contract)
    && AgreesOtherwise(event, receipt, logs[k].members)
  }

  lemma NoLogsNoMatch(event: seq<Member>, receipt: seq<Member>, ids: seq<string>)
    requires forall logs :: !Holds(receipt, "logs", Arr(logs))
    ensures var r := Outcome(event, receipt, ids); !(r.Some? && r.value.status == CORROBORATED)
  {
    hide GraphTxHash, GraphContract, ToInt, Outcome, Agrees;
    CorroboratedMeansAgrees(event, receipt, ids);
    var v := At(receipt, "logs");
    assert !Holds(receipt, "logs", Arr(if v.Arr? then v.items else []));
    assert LogsOf(receipt) == Some([]) || LogsOf(receipt) == None;
  }

  /**
   CORROBORATED if and only if the event claims a transaction, a contract and an index, and the
   first of the receipt's logs with that index is that contract's, in that transaction, and agrees
   otherwise.
   */
  lemma CorroboratedInJson(event: seq<Member>, receipt: seq<Member>, ids: seq<string>)
    ensures var r := Outcome(event, receipt, ids);
      r.Some? && r.value.status == CORROBORATED <==>
        exists logs, hash, contract, n, k: nat ::
          Holds(receipt, "logs", Arr(logs)) && Corroborates(event, receipt, logs, hash, contract, n, k)
  {
    hide Outcome, Corroborates;
    if logs :| Holds(receipt, "logs", Arr(logs)) {
      CorroboratedAmong(event, receipt, logs, ids);
    } else {
      NoLogsNoMatch(event, receipt, ids);
    }
  }

  /** A swap as the default query returns it: hash and contract are the ids of its transaction and its pool. */
  lemma SwapOfDefaultQuery(event: seq<Member>, transaction: seq<Member>, pool: seq<Member>, hash: string,
                           contract: string)
    requires Missing(event, "transactionHash") && PassedOver(event, "address") && Missing(event, "contractAddress")
    requires Holds(event, "transaction", Obj(transaction)) && Holds(transaction, "id", Text(hash))
    requires Holds(event, "pool", Obj(pool)) && Holds(pool, "id", Text(contract))
    ensures forall s :: ClaimsHash(event, s) <==> s == Lower(hash)
    ensures forall s :: ClaimsContract(event, s) <==> s == Lower(contract)
    ensures Missing(event, "blockNumber") ==>
      forall n :: ClaimsBlock(event, n) <==> Numbers(transaction, "blockNumber", n)
  {
    hide Numbers;
    forall s ensures Identifies(Obj(transaction), s) <==> s == Lower(hash) {
      assert Holds(transaction, "id", Text(hash));
    }
    forall s ensures Identifies(Obj(pool), s) <==> s == Lower(contract) {
      assert Holds(pool, "id", Text(contract));
    }
  }

  // ---- which swaps are compared ----

  /** Of a list of swaps the dicts are taken, in order. */
  lemma {:induction false} DictsInOrder(a: seq<Json>, b: seq<Json>)
    ensures Dicts(a + b) == Dicts(a) + Dicts(b)
    ensures forall x :: Dicts([x]) == if x.Obj? then [x.members] else []
    ensures Dicts([]) == []
  {
    assert forall x: Json :: [x][1..] == [];
    if a == [] {
      assert a + b == b;
    } else {
      assert (a + b)[1..] == a[1..] + b;
      DictsInOrder(a[1..], b);
    }
  }

  /** The swaps stand under "data" of the response, which is the payload's own or the payload itself. */
  lemma SwapsRead(payload: seq<Member>, response: seq<Member>, data: seq<Member>, swaps: seq<Json>)
    requires Holds(payload, "response", Obj(response)) || (Get(payload, "response") == None && response == payload)
    requires Holds(response, "data", Obj(data)) && Holds(data, "swaps", Arr(swaps))
    ensures ExtractSwaps(Some(Obj(payload))) == Some(Dicts(swaps))
  {
  }

  /** Without data or swaps there is nothing to compare. */
  lemma NoSwapsRead(payload: seq<Member>, response: seq<Member>)
    requires Holds(payload, "response", Obj(response)) || (Get(payload, "response") == None && response == payload)
    requires PassedOver(response, "data")
      || exists data :: Holds(response, "data", Obj(data)) && PassedOver(data, "swaps")
    ensures ExtractSwaps(Some(Obj(payload))) == Some([]) && ExtractSwaps(None) == Some([])
  {
    TruthyIffNotPassedOver(response, "data");
    if data :| Holds(response, "data", Obj(data)) && PassedOver(data, "swaps") {
      TruthyIffNotPassedOver(data, "swaps");
    }
  }

  /** What stands where a dict or a list belongs makes the extraction raise. */
  lemma MisshapenSwapsRaise(payload: seq<Member>, response: Json, data: Json, swaps: Json)
    requires Holds(payload, "response", response)
    ensures Truthy(response) && !response.Obj? ==> ExtractSwaps(Some(Obj(payload))) == None
    ensures response.Obj? && Holds(response.members, "data", data) && Truthy(data) && !data.Obj? ==>
      ExtractSwaps(Some(Obj(payload))) == None
    ensures response.Obj? && Holds(response.members, "data", data) && data.Obj? && Holds(data.members, "swaps", swaps) ==>
      (swaps == Bool(true) || (swaps.Int? && swaps.n != 0) ==> ExtractSwaps(Some(Obj(payload))) == None)
    ensures forall v: Json :: Truthy(v) && !v.Obj? ==> ExtractSwaps(Some(v)) == None
  {
  }
}
