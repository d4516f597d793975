/** Comparing one indexed Graph event with the receipt log it claims to describe. */
module Reconciliation {
  import opened Basics
  import opened Json
  import opened Numerals

  datatype Status = CORROBORATED | MISMATCH | INDEXER_LAG_SUSPECTED | RPC_UNAVAILABLE | INSUFFICIENT_DATA

  /** A compared value: nothing, a number, a text or a list of lower-cased topics. */
  datatype Seen = Absent | Number(n: int) | Word(s: string) | Topics(items: seq<Option<string>>)

  datatype Compared = Compared(field: string, graph: Seen, rpc: Seen)

  datatype Warning =
    RpcMissing | NoSwaps | ReceiptMissing | GraphFieldsMissing | NoSuchLog(index: int) | BlockHashDiffers
    | Differing(fields: seq<string>)

  datatype ReconciliationResult = ReconciliationResult(
    status: Status, evidenceIds: seq<string>, transactionHash: Option<string>, logIndex: Option<int>,
    contractAddress: Option<string>, blockNumber: Option<int>, blockHash: Option<string>,
    compared: seq<Compared>, warnings: seq<Warning>)

  // ---- extractors ----

  /** `int(s)` on plain digits with an optional sign. */
  function DecimalInt(s: string): Option<int> {
    var digits := if StartsWith(s, "-") || StartsWith(s, "+") then s[1..] else s;
    if digits == [] || !AllDigits(digits, 10) then None
    else if StartsWith(s, "-") then Some(-(OfText(digits, 10) as int))
    else Some(OfText(digits, 10))
  }

  function ToInt(v: Json): Option<int> {
    match v
    case Int(n) => Some(n)
    case Bool(b) => Some(if b then 1 else 0)
    case Text(s) =>
      if StartsWith(s, "0x") then (if ParseHex(s).Some? then Some(ParseHex(s).value) else None) else DecimalInt(s)
    case _ => None
  }

  function LowerOf(v: Json): Option<string> {
    if v.Text? then Some(Lower(v.s)) else None
  }

  /** Python's `a or b`. */
  function OrElse(a: Json, b: Json): Json {
    if Truthy(a) then a else b
  }

  function At(ms: seq<Member>, key: string): Json {
    Field(Obj(ms), key)
  }

  /** A nested dict's member, or the value itself when it is a string. */
  function IdOf(v: Json): Json {
    match v
    case Obj(ms) => At(ms, "id")
    case Text(_) => v
    case _ => Null
  }

  function GraphTxHash(event: seq<Member>): Option<string> {
    var value := At(event, "transactionHash");
    LowerOf(if value == Null then IdOf(At(event, "transaction")) else value)
  }

  function GraphContract(event: seq<Member>): Option<string> {
    var value := OrElse(At(event, "address"), At(event, "contractAddress"));
    LowerOf(if value == Null then IdOf(At(event, "pool")) else value)
  }

  /** The block number of the enclosing transaction, used when the event has none of its own. */
  function FallbackBlock(event: seq<Member>): Json {
    var tx := At(event, "transaction");
    if tx.Obj? then At(tx.members, "blockNumber") else Null
  }

  function GraphBlock(event: seq<Member>): Option<int> {
    var value := At(event, "blockNumber");
    ToInt(if value == Null then FallbackBlock(event) else value)
  }

  /** What a `for` loop over the value visits; None where Python raises. */
  function Iterated(v: Json): Option<seq<Json>> {
    match v
    case Arr(xs) => Some(xs)
    case Text(s) => Some(seq(|s|, i requires 0 <= i < |s| => Text([s[i]])))
    case Obj(ms) => Some(seq(|ms|, i requires 0 <= i < |ms| => Text(ms[i].key)))
    case _ => None
  }

  function LowerAll(xs: seq<Json>): (r: seq<Option<string>>)
    ensures |r| == |xs| && forall i :: 0 <= i < |xs| ==> r[i] == LowerOf(xs[i])
  {
    seq(|xs|, i requires 0 <= i < |xs| => LowerOf(xs[i]))
  }

  /** `d.get("topics", [])`, lower-cased. */
  function TopicsOf(ms: seq<Member>): Option<seq<Option<string>>> {
    var v := if Get(ms, "topics").Some? then Get(ms, "topics").value else Arr([]);
    if Iterated(v).None? then None else Some(LowerAll(Iterated(v).value))
  }

  function SeenInt(n: Option<int>): Seen {
    if n.Some? then Number(n.value) else Absent
  }

  function SeenText(s: Option<string>): Seen {
    if s.Some? then Word(s.value) else Absent
  }

  /** A field only counts against the event when the Graph side says something. */
  predicate Differs(c: Compared) {
    c.graph != Absent && c.graph != Word("") && c.graph != Topics([]) && c.graph != c.rpc
  }

  /** `receipt.get("logs") or []`; None where iterating it would raise at once. */
  function LogsOf(receipt: seq<Member>): Option<seq<Json>> {
    var v := At(receipt, "logs");
    if !Truthy(v) then Some([]) else if v.Arr? then Some(v.items) else None
  }

  predicate HasIndex(log: Json, index: int) {
    log.Obj? && ToInt(At(log.members, "logIndex")) == Some(index)
  }

  /** All fields that are compared, in order, for a given matching log. */
  function ComparedFields(event: seq<Member>, receipt: seq<Member>, log: seq<Member>,
                          graphTopics: seq<Option<string>>, rpcTopics: seq<Option<string>>): seq<Compared>
  {
    var data := LowerOf(At(event, "data"));
    [Compared("transactionHash", SeenText(GraphTxHash(event)), SeenText(LowerOf(At(receipt, "transactionHash")))),
     Compared("logIndex", SeenInt(ToInt(At(event, "logIndex"))), SeenInt(ToInt(At(log, "logIndex")))),
     Compared("contract", SeenText(GraphContract(event)), SeenText(LowerOf(At(log, "address")))),
     Compared("blockNumber", SeenInt(GraphBlock(event)), SeenInt(RpcBlock(receipt, log))),
     Compared("blockHash", SeenText(LowerOf(At(event, "blockHash"))), SeenText(RpcBlockHash(receipt, log)))]
    + (if graphTopics != [] then [Compared("topics", Topics(graphTopics), Topics(rpcTopics))] else [])
    + (if data.Some? && data.value != "" then
         [Compared("data", SeenText(data), SeenText(LowerOf(At(log, "data"))))]
       else [])
  }

  function RpcBlock(receipt: seq<Member>, log: seq<Member>): Option<int> {
    ToInt(OrElse(At(log, "blockNumber"), At(receipt, "blockNumber")))
  }

  function RpcBlockHash(receipt: seq<Member>, log: seq<Member>): Option<string> {
    LowerOf(OrElse(At(log, "blockHash"), At(receipt, "blockHash")))
  }

  function DifferingFields(cs: seq<Compared>): seq<string> {
    if cs == [] then []
    else DifferingFields(cs[..|cs| - 1]) + (if Differs(cs[|cs| - 1]) then [cs[|cs| - 1].field] else [])
  }

  predicate Identified(event: seq<Member>) {
    && GraphTxHash(event).Some? && GraphTxHash(event).value != ""
    && ToInt(At(event, "logIndex")).Some?
    && GraphContract(event).Some? && GraphContract(event).value != ""
  }

  /** The outcome once the matching log is known. */
  function Conclude(event: seq<Member>, receipt: seq<Member>, log: seq<Member>, ids: seq<string>)
    : Option<ReconciliationResult>
  {
    match (TopicsOf(event), TopicsOf(log))
    case (Some(graphTopics), Some(rpcTopics)) =>
      var compared := ComparedFields(event, receipt, log, graphTopics, rpcTopics);
      var differing := DifferingFields(compared);
      var reorg := if Differs(compared[4]) then [BlockHashDiffers] else [];
      Some(if differing != [] then
        ReconciliationResult(MISMATCH, ids, GraphTxHash(event), ToInt(At(event, "logIndex")), GraphContract(event),
                             GraphBlock(event), LowerOf(At(event, "blockHash")), compared,
                             reorg + [Differing(differing)])
      else
        ReconciliationResult(CORROBORATED, ids, GraphTxHash(event), ToInt(At(event, "logIndex")), GraphContract(event),
                             RpcBlock(receipt, log), RpcBlockHash(receipt, log), compared, reorg))
    case _ => None
  }

  datatype Search = NotFound | NotADict | Hit(log: seq<Member>)

  /** The search loop: the first log with the index, unless something before it is not a dict. */
  function FindLog(logs: seq<Json>, index: int): Search {
    if logs == [] then NotFound
    else if !logs[0].Obj? then NotADict
    else if HasIndex(logs[0], index) then Hit(logs[0].members)
    else FindLog(logs[1..], index)
  }

  /** None is an exception: a log that is not a dict before any match, or a value that cannot be iterated. */
  function Outcome(event: seq<Member>, receipt: seq<Member>, ids: seq<string>): Option<ReconciliationResult> {
    var txHash, index, contract := GraphTxHash(event), ToInt(At(event, "logIndex")), GraphContract(event);
    if !Identified(event) then
      Some(ReconciliationResult(INSUFFICIENT_DATA, ids, txHash, index, contract, None, None, [], [GraphFieldsMissing]))
    else if LogsOf(receipt).None? then None
    else
      match FindLog(LogsOf(receipt).value, index.value)
      case NotADict => None
      case NotFound =>
        Some(ReconciliationResult(MISMATCH, ids, txHash, index, contract, GraphBlock(event),
                                  LowerOf(At(event, "blockHash")), [], [NoSuchLog(index.value)]))
      case Hit(log) => Conclude(event, receipt, log, ids)
  }

  method ReconcileGraphEventWithReceipt(event: seq<Member>, receipt: seq<Member>, ids: seq<string>)
    returns (r: Option<ReconciliationResult>)
    ensures r == Outcome(event, receipt, ids)
  {
    hide ToInt, LowerOf, GraphTxHash, GraphContract, GraphBlock, Conclude, Field;
    var txHash, logIndex, contract := GraphTxHash(event), ToInt(At(event, "logIndex")), GraphContract(event);
    var block, blockHash := GraphBlock(event), LowerOf(At(event, "blockHash"));
    if txHash.None? || txHash.value == "" || logIndex.None? || contract.None? || contract.value == "" {
      return Some(ReconciliationResult(INSUFFICIENT_DATA, ids, txHash, logIndex, contract, None, None, [],
                                       [GraphFieldsMissing]));
    }
    var found := LogsOf(receipt);
    if found.None? {
      return None;
    }
    var logs := found.value;
    var matching: Option<seq<Member>> := None;
    var k := 0;
    assert logs[0..] == logs;
    while k < |logs|
      invariant 0 <= k <= |logs|
      invariant FindLog(logs, logIndex.value) == FindLog(logs[k..], logIndex.value)
      invariant matching.None?
    {
      var log := logs[k];
      assert logs[k..][1..] == logs[k + 1..];
      if !log.Obj? {
        return None;
      }
      if ToInt(At(log.members, "logIndex")) == logIndex {
        matching := Some(log.members);
        break;
      }
      k := k + 1;
    }
    if matching.None? {
      return Some(ReconciliationResult(MISMATCH, ids, txHash, logIndex, contract, block, blockHash, [],
                                       [NoSuchLog(logIndex.value)]));
    }
    r := CompareWithLog(event, receipt, matching.value, ids);
  }

  /** The second half of the procedure: fill `compared`, collect the mismatches, and judge. */
  method CompareWithLog(event: seq<Member>, receipt: seq<Member>, log: seq<Member>, ids: seq<string>)
    returns (r: Option<ReconciliationResult>)
    ensures r == Conclude(event, receipt, log, ids)
  {
    hide ToInt, LowerOf, GraphTxHash, GraphContract, GraphBlock, At, Truthy, Differs, TopicsOf;
    var warnings: seq<Warning> := [];
    var compared := [Compared("transactionHash", SeenText(GraphTxHash(event)),
                              SeenText(LowerOf(At(receipt, "transactionHash"))))];
    compared := compared + [Compared("logIndex", SeenInt(ToInt(At(event, "logIndex"))),
                                     SeenInt(ToInt(At(log, "logIndex"))))];
    compared := compared + [Compared("contract", SeenText(GraphContract(event)),
                                     SeenText(LowerOf(At(log, "address"))))];
    var rpcBlock := ToInt(OrElse(At(log, "blockNumber"), At(receipt, "blockNumber")));
    compared := compared + [Compared("blockNumber", SeenInt(GraphBlock(event)), SeenInt(rpcBlock))];
    var rpcBlockHash := LowerOf(OrElse(At(log, "blockHash"), At(receipt, "blockHash")));
    var hashes := Compared("blockHash", SeenText(LowerOf(At(event, "blockHash"))), SeenText(rpcBlockHash));
    compared := compared + [hashes];
    var graphTopics, rpcTopics := TopicsOf(event), TopicsOf(log);
    if graphTopics.None? || rpcTopics.None? {
      return None;
    }
    if graphTopics.value != [] {
      compared := compared + [Compared("topics", Topics(graphTopics.value), Topics(rpcTopics.value))];
    }
    var graphData := LowerOf(At(event, "data"));
    if graphData.Some? && graphData.value != "" {
      compared := compared + [Compared("data", SeenText(graphData), SeenText(LowerOf(At(log, "data"))))];
    }
    assert compared == ComparedFields(event, receipt, log, graphTopics.value, rpcTopics.value);
    var mismatches: seq<string> := [];
    for i := 0 to |compared|
      invariant mismatches == DifferingFields(compared[..i])
    {
      assert compared[..i + 1][..i] == compared[..i];
      if Differs(compared[i]) {
        mismatches := mismatches + [compared[i].field];
      }
    }
    assert compared[..|compared|] == compared && compared[4] == hashes;
    if Differs(hashes) {
      warnings := warnings + [BlockHashDiffers];
    }
    assert warnings == if Differs(hashes) then [BlockHashDiffers] else [];
    if mismatches != [] {
      warnings := warnings + [Differing(mismatches)];
      return Some(ReconciliationResult(MISMATCH, ids, GraphTxHash(event), ToInt(At(event, "logIndex")),
                                       GraphContract(event), GraphBlock(event), LowerOf(At(event, "blockHash")),
                                       compared, warnings));
    }
    return Some(ReconciliationResult(CORROBORATED, ids, GraphTxHash(event), ToInt(At(event, "logIndex")),
                                     GraphContract(event), rpcBlock, rpcBlockHash, compared, warnings));
  }

  // ---- when an event is corroborated ----

  /** `k` is the position of the first log with the index, and every log before it is a dict. */
  ghost predicate FirstMatch(logs: seq<Json>, index: int, k: nat) {
    && k < |logs| && HasIndex(logs[k], index)
    && forall j :: 0 <= j < k ==> logs[j].Obj? && !HasIndex(logs[j], index)
  }

  lemma {:induction false} FindLogIsFirstMatch(logs: seq<Json>, index: int, k: nat)
    requires FirstMatch(logs, index, k)
    ensures FindLog(logs, index) == Hit(logs[k].members)
  {
    if k > 0 {
      assert logs[0].Obj? && !HasIndex(logs[0], index);
      forall j | 0 <= j < k - 1 ensures logs[1..][j].Obj? && !HasIndex(logs[1..][j], index) {
        assert logs[1..][j] == logs[j + 1];
      }
      FindLogIsFirstMatch(logs[1..], index, k - 1);
    }
  }

  lemma {:induction false} HitHasPosition(logs: seq<Json>, index: int) returns (k: nat)
    requires FindLog(logs, index).Hit?
    ensures FirstMatch(logs, index, k) && FindLog(logs, index) == Hit(logs[k].members)
  {
    if HasIndex(logs[0], index) {
      k := 0;
    } else {
      var i := HitHasPosition(logs[1..], index);
      k := i + 1;
      forall j | 0 <= j < k ensures logs[j].Obj? && !HasIndex(logs[j], index) {
        assert j == 0 || logs[j] == logs[1..][j - 1];
      }
    }
  }

  /** The log agrees on transaction and contract, and on every optional field the event fills in. */
  ghost predicate Agrees(event: seq<Member>, receipt: seq<Member>, log: seq<Member>) {
    && TopicsOf(event).Some? && TopicsOf(log).Some?
    && LowerOf(At(receipt, "transactionHash")) == GraphTxHash(event)
    && LowerOf(At(log, "address")) == GraphContract(event)
    && (GraphBlock(event).Some? ==> RpcBlock(receipt, log) == GraphBlock(event))
    && SaysSame(LowerOf(At(event, "blockHash")), RpcBlockHash(receipt, log))
    && (TopicsOf(event).value != [] ==> TopicsOf(log) == TopicsOf(event))
    && SaysSame(LowerOf(At(event, "data")), LowerOf(At(log, "data")))
  }

  predicate SaysSame(graph: Option<string>, rpc: Option<string>) {
    graph.Some? && graph.value != "" ==> rpc == graph
  }

  lemma {:induction false} NothingDiffers(cs: seq<Compared>)
    ensures DifferingFields(cs) == [] <==> NoneDiffers(cs)
  {
    if cs != [] {
      var init, last := cs[..|cs| - 1], cs[|cs| - 1];
      assert cs == init + [last];
      NothingDiffers(init);
      var a, b := DifferingFields(init), if Differs(last) then [last.field] else [];
      assert a + b == [] <==> a == [] && b == [] by { assert |a + b| == |a| + |b|; }
      assert forall c :: c in cs <==> c in init || c == last;
    }
  }

  ghost predicate NoneDiffers(cs: seq<Compared>) {
    forall c <- cs :: !Differs(c)
  }

  lemma NoneOfConcat(a: seq<Compared>, b: seq<Compared>, c: seq<Compared>)
    ensures NoneDiffers(a + b + c) <==> NoneDiffers(a) && NoneDiffers(b) && NoneDiffers(c)
  {
    assert forall x :: x in a + b + c <==> x in a || x in b || x in c;
  }

  lemma NoneOfFive(a: seq<Compared>)
    requires |a| == 5
    ensures NoneDiffers(a) <==> !Differs(a[0]) && !Differs(a[1]) && !Differs(a[2]) && !Differs(a[3]) && !Differs(a[4])
  {
    assert a == [a[0], a[1], a[2], a[3], a[4]];
    assert a[0] in a && a[1] in a && a[2] in a && a[3] in a && a[4] in a;
  }

  lemma NoneOfAtMostOne(a: seq<Compared>)
    requires |a| <= 1
    ensures NoneDiffers(a) <==> a == [] || !Differs(a[0])
  {
    assert a != [] ==> a[0] in a;
  }

  lemma TextDiffers(field: string, graph: Option<string>, rpc: Option<string>)
    ensures !Differs(Compared(field, SeenText(graph), SeenText(rpc))) <==> SaysSame(graph, rpc)
  {
  }

  lemma NumberDiffers(field: string, graph: Option<int>, rpc: Option<int>)
    ensures !Differs(Compared(field, SeenInt(graph), SeenInt(rpc))) <==> (graph.Some? ==> rpc == graph)
  {
  }

  lemma AgreementOfFields(event: seq<Member>, receipt: seq<Member>, log: seq<Member>,
                          graphTopics: seq<Option<string>>, rpcTopics: seq<Option<string>>)
    requires Identified(event) && ToInt(At(log, "logIndex")) == ToInt(At(event, "logIndex"))
    requires TopicsOf(event) == Some(graphTopics) && TopicsOf(log) == Some(rpcTopics)
    ensures NoneDiffers(ComparedFields(event, receipt, log, graphTopics, rpcTopics)) <==>
      Agrees(event, receipt, log)
  {
    hide ToInt, LowerOf, GraphTxHash, GraphContract, GraphBlock, RpcBlock, RpcBlockHash, At, TopicsOf, SeenText,
      SeenInt, Differs, NoneDiffers;
    var cs := ComparedFields(event, receipt, log, graphTopics, rpcTopics);
    var base, data := cs[..5], LowerOf(At(event, "data"));
    var t := if graphTopics != [] then [Compared("topics", Topics(graphTopics), Topics(rpcTopics))] else [];
    var d :=
      if data.Some? && data.value != "" then [Compared("data", SeenText(data), SeenText(LowerOf(At(log, "data"))))]
      else [];
    assert cs == base + t + d;
    NoneOfConcat(base, t, d);
    NoneOfFive(base);
    NoneOfAtMostOne(t);
    NoneOfAtMostOne(d);
    TextDiffers("transactionHash", GraphTxHash(event), LowerOf(At(receipt, "transactionHash")));
    NumberDiffers("logIndex", ToInt(At(event, "logIndex")), ToInt(At(log, "logIndex")));
    TextDiffers("contract", GraphContract(event), LowerOf(At(log, "address")));
    NumberDiffers("blockNumber", GraphBlock(event), RpcBlock(receipt, log));
    TextDiffers("blockHash", LowerOf(At(event, "blockHash")), RpcBlockHash(receipt, log));
    TextDiffers("data", data, LowerOf(At(log, "data")));
    TopicsDiffer(graphTopics, rpcTopics);
  }

  lemma TopicsDiffer(graph: seq<Option<string>>, rpc: seq<Option<string>>)
    ensures graph != [] ==> (!Differs(Compared("topics", Topics(graph), Topics(rpc))) <==> rpc == graph)
  {
  }

  /** CORROBORATED iff the event is identified and the first log with its index agrees with it. */
  lemma CorroboratedMeansAgrees(event: seq<Member>, receipt: seq<Member>, ids: seq<string>)
    ensures var r := Outcome(event, receipt, ids);
      r.Some? && r.value.status == CORROBORATED <==>
        && Identified(event) && LogsOf(receipt).Some?
        && exists k: nat :: FirstMatch(LogsOf(receipt).value, ToInt(At(event, "logIndex")).value, k)
                     && Agrees(event, receipt, LogsOf(receipt).value[k].members)
  {
    hide ToInt, LowerOf, GraphTxHash, GraphContract, GraphBlock, RpcBlock, RpcBlockHash, At, TopicsOf, ComparedFields,
      LogsOf, Agrees, DifferingFields;
    if Identified(event) && LogsOf(receipt).Some? {
      var logs, index := LogsOf(receipt).value, ToInt(At(event, "logIndex")).value;
      if FindLog(logs, index).Hit? {
        var k := HitHasPosition(logs, index);
        Concluded(event, receipt, logs[k].members, ids);
        forall i: nat | FirstMatch(logs, index, i) ensures logs[i].members == logs[k].members {
          FindLogIsFirstMatch(logs, index, i);
        }
      } else {
        forall i: nat ensures !FirstMatch(logs, index, i) {
          if FirstMatch(logs, index, i) { FindLogIsFirstMatch(logs, index, i); }
        }
      }
    }
  }

  lemma Concluded(event: seq<Member>, receipt: seq<Member>, log: seq<Member>, ids: seq<string>)
    requires Identified(event) && ToInt(At(log, "logIndex")) == ToInt(At(event, "logIndex"))
    ensures var r := Conclude(event, receipt, log, ids);
      r.Some? && r.value.status == CORROBORATED <==> Agrees(event, receipt, log)
  {
    hide ToInt, LowerOf, GraphTxHash, GraphContract, GraphBlock, RpcBlock, RpcBlockHash, At, TopicsOf, ComparedFields,
      DifferingFields;
    if TopicsOf(event).Some? && TopicsOf(log).Some? {
      AgreementOfFields(event, receipt, log, TopicsOf(event).value, TopicsOf(log).value);
      NothingDiffers(ComparedFields(event, receipt, log, TopicsOf(event).value, TopicsOf(log).value));
    }
  }

  /** What a CORROBORATED result reports is what the receipt says, without a warning. */
  lemma CorroboratedReportsReceipt(event: seq<Member>, receipt: seq<Member>, ids: seq<string>, k: nat)
    requires Identified(event) && LogsOf(receipt).Some?
    requires FirstMatch(LogsOf(receipt).value, ToInt(At(event, "logIndex")).value, k)
    requires Outcome(event, receipt, ids).Some? && Outcome(event, receipt, ids).value.status == CORROBORATED
    ensures var r, log := Outcome(event, receipt, ids).value, LogsOf(receipt).value[k].members;
      && r.evidenceIds == ids && r.warnings == []
      && r.transactionHash == LowerOf(At(receipt, "transactionHash"))
      && r.logIndex == ToInt(At(log, "logIndex"))
      && r.contractAddress == LowerOf(At(log, "address"))
      && r.blockNumber == RpcBlock(receipt, log) && (GraphBlock(event).Some? ==> r.blockNumber == GraphBlock(event))
      && r.blockHash == RpcBlockHash(receipt, log)
  {
    hide ToInt, LowerOf, GraphTxHash, GraphContract, GraphBlock, RpcBlock, RpcBlockHash, At, TopicsOf, LogsOf,
      Differs, DifferingFields;
    var logs := LogsOf(receipt).value;
    var log := logs[k].members;
    FindLogIsFirstMatch(logs, ToInt(At(event, "logIndex")).value, k);
    Concluded(event, receipt, log, ids);
    var cs := ComparedFields(event, receipt, log, TopicsOf(event).value, TopicsOf(log).value);
    NothingDiffers(cs);
    assert cs[4] in cs;
  }

  /** A MISMATCH names the fields that differ, or the index that no log has; nothing else is one. */
  lemma MismatchIsExplained(event: seq<Member>, receipt: seq<Member>, ids: seq<string>)
    requires Outcome(event, receipt, ids).Some? && Outcome(event, receipt, ids).value.status == MISMATCH
    ensures var r := Outcome(event, receipt, ids).value;
      && Identified(event) && r.logIndex.Some?
      && r.blockNumber == GraphBlock(event) && r.blockHash == LowerOf(At(event, "blockHash"))
      && if r.compared == [] then
           && r.warnings == [NoSuchLog(r.logIndex.value)]
           && forall log <- LogsOf(receipt).value :: !HasIndex(log, r.logIndex.value)
         else
           && DifferingFields(r.compared) != []
           && r.warnings[|r.warnings| - 1] == Differing(DifferingFields(r.compared))
           && (BlockHashDiffers in r.warnings <==> Differs(r.compared[4]))
  {
    hide ToInt, LowerOf, GraphTxHash, GraphContract, GraphBlock, RpcBlock, RpcBlockHash, At, TopicsOf, Differs,
      DifferingFields;
    if FindLog(LogsOf(receipt).value, ToInt(At(event, "logIndex")).value).NotFound? {
      NotFoundMeansNone(LogsOf(receipt).value, ToInt(At(event, "logIndex")).value);
    }
  }

  lemma {:induction false} NotFoundMeansNone(logs: seq<Json>, index: int)
    requires FindLog(logs, index).NotFound?
    ensures forall log <- logs :: !HasIndex(log, index)
  {
    if logs != [] {
      assert logs == [logs[0]] + logs[1..];
      NotFoundMeansNone(logs[1..], index);
    }
  }
}
