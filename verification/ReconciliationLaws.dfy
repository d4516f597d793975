/** What does and does not change a reconciliation: spelling, missing fields, and the batch form. */
module ReconciliationLaws {
  import opened Basics
  import opened Json
  import opened Numerals
  import opened Reconciliation

  // ---- how numbers are written, and which spellings the program reads ----

  predicate HexPrefixed(s: string) {
    |s| >= 2 && s[0] == '0' && (s[1] == 'x' || s[1] == 'X')
  }

  /**
   The number a JSON value writes: an integer, decimal text, or hexadecimal text with either prefix and
   either case.
   */
  function Written(v: Json): Option<int> {
    match v
    case Int(n) => Some(n)
    case Bool(b) => Some(if b then 1 else 0)
    case Text(s) =>
      if !HexPrefixed(s) then DecimalInt(s)
      else if s[2..] != [] && AllDigits(s[2..], 16) then Some(OfText(s[2..], 16))
      else None
    case _ => None
  }

  predicate CapitalPrefix(v: Json) {
    v.Text? && HexPrefixed(v.s) && v.s[1] == 'X'
  }

  /** The program reads every number that is written, except behind a capital prefix. */
  lemma ReadUnlessCapital(v: Json)
    ensures ToInt(v) == if CapitalPrefix(v) then None else Written(v)
  {
    hide OfText, DigitValue;
    if v.Text? && HexPrefixed(v.s) {
      assert v.s[..2] == [v.s[0], v.s[1]];
      if v.s[1] == 'X' {
        assert !IsDigit(v.s[1], 10) by { CapitalIsNoDigit(); }
        assert v.s[..1] == ['0'];
      }
    } else if v.Text? && |v.s| >= 2 {
      assert v.s[..2] == [v.s[0], v.s[1]];
    }
  }

  lemma CapitalIsNoDigit()
    ensures !IsDigit('X', 10)
  {
  }

  lemma FalseNumberIsZero(v: Json)
    requires Written(v).Some? && !Truthy(v)
    ensures Written(v) == Some(0) && !CapitalPrefix(v)
  {
  }

  /** What is read of a number. */
  function Seen(v: Json): Option<int> {
    if CapitalPrefix(v) then None else Written(v)
  }

  // ---- spelling: letter case, and hex or decimal numbers ----

  predicate Recased(v: Json, w: Json) {
    v == w || (v.Text? && w.Text? && Lower(v.s) == Lower(w.s))
  }

  predicate SameNumber(v: Json, w: Json) {
    Written(v).Some? && Written(v) == Written(w)
  }

  /** The same number, written with a capital prefix in both places or in neither. */
  predicate Renumbered(v: Json, w: Json) {
    v == w || (SameNumber(v, w) && (CapitalPrefix(v) <==> CapitalPrefix(w)))
  }

  /**
   A log's block number defers to the receipt's, `z`, when it is false.  So a number spelled once
   as false and once as true (a zero) reads the same only if the receipt's number does too.
   */
  predicate KeptUnder(v: Json, w: Json, z: Json) {
    if Truthy(v) == Truthy(w) then CapitalPrefix(v) == CapitalPrefix(w)
    else Seen(z) == if CapitalPrefix(v) || CapitalPrefix(w) then None else Some(0)
  }

  predicate RenumberedUnder(v: Json, w: Json, z: Json) {
    v == w || (SameNumber(v, w) && KeptUnder(v, w, z))
  }

  predicate RecasedItems(v: Json, w: Json) {
    v == w ||
    (v.Arr? && w.Arr? && |v.items| == |w.items|
     && forall i :: 0 <= i < |v.items| ==> Recased(v.items[i], w.items[i]))
  }

  predicate SameLeaf(key: string, v: Json, w: Json) {
    if key == "logIndex" || key == "blockNumber" then Renumbered(v, w)
    else if key == "topics" then RecasedItems(v, w)
    else Recased(v, w)
  }

  /** The same dict spelled differently. */
  predicate SameLeaves(a: seq<Member>, b: seq<Member>) {
    |a| == |b| && forall i :: 0 <= i < |a| ==> a[i].key == b[i].key && SameLeaf(a[i].key, a[i].value, b[i].value)
  }

  predicate SameNested(v: Json, w: Json) {
    Recased(v, w) || (v.Obj? && w.Obj? && SameLeaves(v.members, w.members))
  }

  predicate SameEvent(a: seq<Member>, b: seq<Member>) {
    |a| == |b| && forall i :: 0 <= i < |a| ==>
      && a[i].key == b[i].key
      && if a[i].key == "transaction" || a[i].key == "pool" then SameNested(a[i].value, b[i].value)
         else SameLeaf(a[i].key, a[i].value, b[i].value)
  }

  predicate SameLogLeaf(key: string, v: Json, w: Json, z: Json) {
    if key == "blockNumber" then RenumberedUnder(v, w, z) else SameLeaf(key, v, w)
  }

  /** `z` is the block number of the receipt around the log. */
  predicate SameLog(v: Json, w: Json, z: Json) {
    v == w ||
    (v.Obj? && w.Obj? && |v.members| == |w.members| && forall i :: 0 <= i < |v.members| ==>
      v.members[i].key == w.members[i].key && SameLogLeaf(v.members[i].key, v.members[i].value, w.members[i].value, z))
  }

  predicate SameLogs(v: Json, w: Json, z: Json) {
    v == w ||
    (v.Arr? && w.Arr? && |v.items| == |w.items|
     && forall i :: 0 <= i < |v.items| ==> SameLog(v.items[i], w.items[i], z))
  }

  predicate SameReceipt(a: seq<Member>, b: seq<Member>) {
    |a| == |b| && forall i :: 0 <= i < |a| ==>
      && a[i].key == b[i].key
      && if a[i].key == "logs" then SameLogs(a[i].value, b[i].value, At(a, "blockNumber"))
         else SameLeaf(a[i].key, a[i].value, b[i].value)
  }

  /** Dicts with the same keys in the same order are looked up at the same place. */
  lemma {:induction false} SamePlace(a: seq<Member>, b: seq<Member>, key: string) returns (i: nat)
    requires |a| == |b| && forall i :: 0 <= i < |a| ==> a[i].key == b[i].key
    ensures i <= |a|
    ensures i == |a| ==> Get(a, key).None? && Get(b, key).None?
    ensures i < |a| ==> a[i].key == key && Get(a, key) == Some(a[i].value) && Get(b, key) == Some(b[i].value)
  {
    if a == [] || a[0].key == key {
      i := 0;
    } else {
      var j := SamePlace(a[1..], b[1..], key);
      i := j + 1;
    }
  }

  lemma LeafRelated(a: seq<Member>, b: seq<Member>, key: string)
    requires SameLeaves(a, b)
    ensures SameLeaf(key, At(a, key), At(b, key))
    ensures Get(a, key).Some? <==> Get(b, key).Some?
  {
    hide Written, CapitalPrefix;
    var i := SamePlace(a, b, key);
  }

  lemma EventRelated(a: seq<Member>, b: seq<Member>, key: string)
    requires SameEvent(a, b)
    ensures Get(a, key).Some? <==> Get(b, key).Some?
    ensures if key == "transaction" || key == "pool" then SameNested(At(a, key), At(b, key))
            else SameLeaf(key, At(a, key), At(b, key))
  {
    hide Written, CapitalPrefix;
    var i := SamePlace(a, b, key);
  }

  lemma ReceiptRelated(a: seq<Member>, b: seq<Member>, key: string)
    requires SameReceipt(a, b)
    ensures if key == "logs" then SameLogs(At(a, key), At(b, key), At(a, "blockNumber"))
            else SameLeaf(key, At(a, key), At(b, key))
  {
    hide Written, CapitalPrefix, Truthy;
    var i := SamePlace(a, b, key);
  }

  lemma LogRelated(a: seq<Member>, b: seq<Member>, z: Json, key: string)
    requires SameLog(Obj(a), Obj(b), z)
    ensures SameLogLeaf(key, At(a, key), At(b, key), z)
    ensures Get(a, key).Some? <==> Get(b, key).Some?
  {
    hide Written, CapitalPrefix, Truthy;
    if a != b {
      var i := SamePlace(a, b, key);
    }
  }

  lemma RenumberedReadsSame(v: Json, w: Json)
    requires Renumbered(v, w)
    ensures ToInt(v) == ToInt(w) && (v == Null <==> w == Null)
  {
    ReadUnlessCapital(v);
    ReadUnlessCapital(w);
  }

  lemma DeferringReadsSame(v: Json, w: Json, y: Json, z: Json)
    requires RenumberedUnder(v, w, y) && Renumbered(y, z)
    ensures ToInt(OrElse(v, y)) == ToInt(OrElse(w, z))
  {
    hide Written;
    ReadUnlessCapital(v);
    ReadUnlessCapital(w);
    ReadUnlessCapital(y);
    RenumberedReadsSame(y, z);
    if v != w && !Truthy(v) { FalseNumberIsZero(v); }
    if v != w && !Truthy(w) { FalseNumberIsZero(w); }
  }

  lemma RecasedReadsSame(v: Json, w: Json)
    requires Recased(v, w)
    ensures LowerOf(v) == LowerOf(w) && (Truthy(v) <==> Truthy(w)) && (v == Null <==> w == Null)
  {
    if v.Text? && w.Text? {
      assert |Lower(v.s)| == |v.s| && |Lower(w.s)| == |w.s|;
    }
  }

  lemma NestedReadsSame(v: Json, w: Json)
    requires SameNested(v, w)
    ensures LowerOf(IdOf(v)) == LowerOf(IdOf(w))
    ensures v.Obj? <==> w.Obj?
    ensures v.Obj? ==> Renumbered(At(v.members, "blockNumber"), At(w.members, "blockNumber"))
  {
    hide Written, CapitalPrefix;
    if v.Obj? && w.Obj? && SameLeaves(v.members, w.members) {
      LeafRelated(v.members, w.members, "id");
      LeafRelated(v.members, w.members, "blockNumber");
      RecasedReadsSame(At(v.members, "id"), At(w.members, "id"));
    } else {
      RecasedReadsSame(v, w);
    }
  }

  lemma TopicsReadSame(a: seq<Member>, b: seq<Member>)
    requires Get(a, "topics").Some? <==> Get(b, "topics").Some?
    requires RecasedItems(At(a, "topics"), At(b, "topics"))
    ensures TopicsOf(a) == TopicsOf(b)
  {
    if Get(a, "topics").Some? {
      var v, w := Get(a, "topics").value, Get(b, "topics").value;
      if v.Arr? && w.Arr? {
        forall i | 0 <= i < |v.items| ensures LowerOf(v.items[i]) == LowerOf(w.items[i]) {
          RecasedReadsSame(v.items[i], w.items[i]);
        }
        assert LowerAll(v.items) == LowerAll(w.items);
      }
    }
  }

  lemma EventReadsSame(a: seq<Member>, b: seq<Member>)
    requires SameEvent(a, b)
    ensures GraphTxHash(a) == GraphTxHash(b) && GraphContract(a) == GraphContract(b) && GraphBlock(a) == GraphBlock(b)
    ensures ToInt(At(a, "logIndex")) == ToInt(At(b, "logIndex"))
    ensures LowerOf(At(a, "blockHash")) == LowerOf(At(b, "blockHash"))
      && LowerOf(At(a, "data")) == LowerOf(At(b, "data"))
    ensures TopicsOf(a) == TopicsOf(b)
  {
    hide SameEvent, SameNested, At, Renumbered, ToInt;
    EventRelated(a, b, "transactionHash");
    EventRelated(a, b, "transaction");
    EventRelated(a, b, "address");
    EventRelated(a, b, "contractAddress");
    EventRelated(a, b, "pool");
    EventRelated(a, b, "blockNumber");
    EventRelated(a, b, "logIndex");
    EventRelated(a, b, "blockHash");
    EventRelated(a, b, "data");
    EventRelated(a, b, "topics");
    RecasedReadsSame(At(a, "transactionHash"), At(b, "transactionHash"));
    RecasedReadsSame(At(a, "address"), At(b, "address"));
    RecasedReadsSame(At(a, "contractAddress"), At(b, "contractAddress"));
    RecasedReadsSame(At(a, "blockHash"), At(b, "blockHash"));
    RecasedReadsSame(At(a, "data"), At(b, "data"));
    NestedReadsSame(At(a, "transaction"), At(b, "transaction"));
    NestedReadsSame(At(a, "pool"), At(b, "pool"));
    TopicsReadSame(a, b);
    RenumberedReadsSame(At(a, "logIndex"), At(b, "logIndex"));
    RenumberedReadsSame(At(a, "blockNumber"), At(b, "blockNumber"));
    RenumberedReadsSame(FallbackBlock(a), FallbackBlock(b));
  }

  lemma LogReadsSame(a: seq<Member>, b: seq<Member>, receiptA: seq<Member>, receiptB: seq<Member>)
    requires SameLog(Obj(a), Obj(b), At(receiptA, "blockNumber")) && SameReceipt(receiptA, receiptB)
    ensures ToInt(At(a, "logIndex")) == ToInt(At(b, "logIndex"))
    ensures LowerOf(At(a, "address")) == LowerOf(At(b, "address")) && LowerOf(At(a, "data")) == LowerOf(At(b, "data"))
    ensures RpcBlock(receiptA, a) == RpcBlock(receiptB, b) && RpcBlockHash(receiptA, a) == RpcBlockHash(receiptB, b)
    ensures TopicsOf(a) == TopicsOf(b)
  {
    hide SameLog, SameReceipt, At, ToInt, Renumbered, RenumberedUnder;
    var z := At(receiptA, "blockNumber");
    ReceiptRelated(receiptA, receiptB, "blockNumber");
    ReceiptRelated(receiptA, receiptB, "blockHash");
    RecasedReadsSame(At(receiptA, "blockHash"), At(receiptB, "blockHash"));
    LogRelated(a, b, z, "logIndex");
    LogRelated(a, b, z, "address");
    LogRelated(a, b, z, "data");
    LogRelated(a, b, z, "blockNumber");
    LogRelated(a, b, z, "blockHash");
    LogRelated(a, b, z, "topics");
    RecasedReadsSame(At(a, "address"), At(b, "address"));
    RecasedReadsSame(At(a, "data"), At(b, "data"));
    RecasedReadsSame(At(a, "blockHash"), At(b, "blockHash"));
    RenumberedReadsSame(At(a, "logIndex"), At(b, "logIndex"));
    DeferringReadsSame(At(a, "blockNumber"), At(b, "blockNumber"), z, At(receiptB, "blockNumber"));
    TopicsReadSame(a, b);
  }

  lemma {:induction false} FindRelated(xs: seq<Json>, ys: seq<Json>, z: Json, index: int)
    requires |xs| == |ys| && forall i :: 0 <= i < |xs| ==> SameLog(xs[i], ys[i], z)
    ensures var x, y := FindLog(xs, index), FindLog(ys, index);
      x == y || (x.Hit? && y.Hit? && SameLog(Obj(x.log), Obj(y.log), z))
  {
    hide SameLog;
    if xs != [] {
      assert SameLog(xs[0], ys[0], z);
      SameKind(xs[0], ys[0], z);
      if xs[0].Obj? {
        SameIndex(xs[0].members, ys[0].members, z);
      }
      FindRelated(xs[1..], ys[1..], z, index);
    }
  }

  lemma SameKind(v: Json, w: Json, z: Json)
    requires SameLog(v, w, z)
    ensures v.Obj? <==> w.Obj?
    ensures v.Obj? ==> v == Obj(v.members) && w == Obj(w.members)
  {
  }

  lemma SameIndex(a: seq<Member>, b: seq<Member>, z: Json)
    requires SameLog(Obj(a), Obj(b), z)
    ensures ToInt(At(a, "logIndex")) == ToInt(At(b, "logIndex"))
  {
    hide SameLog, ToInt, Renumbered, RenumberedUnder;
    LogRelated(a, b, z, "logIndex");
    RenumberedReadsSame(At(a, "logIndex"), At(b, "logIndex"));
  }

  lemma LogsRelated(a: seq<Member>, b: seq<Member>, index: int)
    requires SameReceipt(a, b)
    ensures LogsOf(a).Some? <==> LogsOf(b).Some?
    ensures LogsOf(a).Some? ==>
      var x, y := FindLog(LogsOf(a).value, index), FindLog(LogsOf(b).value, index);
      x == y || (x.Hit? && y.Hit? && SameLog(Obj(x.log), Obj(y.log), At(a, "blockNumber")))
  {
    hide SameReceipt, SameLog, FindLog, At;
    ReceiptRelated(a, b, "logs");
    var v, w := At(a, "logs"), At(b, "logs");
    if v != w {
      FindRelated(v.items, w.items, At(a, "blockNumber"), index);
    }
  }

  lemma ConcludesSame(eventA: seq<Member>, eventB: seq<Member>, receiptA: seq<Member>, receiptB: seq<Member>,
                      a: seq<Member>, b: seq<Member>, ids: seq<string>)
    requires SameEvent(eventA, eventB) && SameReceipt(receiptA, receiptB)
    requires SameLog(Obj(a), Obj(b), At(receiptA, "blockNumber"))
    ensures Conclude(eventA, receiptA, a, ids) == Conclude(eventB, receiptB, b, ids)
  {
    hide SameEvent, SameReceipt, SameLog, At, ToInt, LowerOf, TopicsOf, DifferingFields, GraphTxHash, GraphContract,
      GraphBlock, RpcBlock, RpcBlockHash;
    EventReadsSame(eventA, eventB);
    LogReadsSame(a, b, receiptA, receiptB);
    ReceiptHash(receiptA, receiptB);
  }

  lemma ReceiptHash(a: seq<Member>, b: seq<Member>)
    requires SameReceipt(a, b)
    ensures LowerOf(At(a, "transactionHash")) == LowerOf(At(b, "transactionHash"))
  {
    hide SameReceipt, At;
    ReceiptRelated(a, b, "transactionHash");
    RecasedReadsSame(At(a, "transactionHash"), At(b, "transactionHash"));
  }

  /**
   Letter case of hashes, addresses, topics and data, and the spelling of numbers, do not change the
   outcome as long as no 0x prefix changes case and no log's zero block number stops or starts
   deferring to a receipt that says otherwise.
   */
  lemma SpellingIrrelevant(eventA: seq<Member>, eventB: seq<Member>, receiptA: seq<Member>, receiptB: seq<Member>,
                           ids: seq<string>)
    requires SameEvent(eventA, eventB) && SameReceipt(receiptA, receiptB)
    ensures Outcome(eventA, receiptA, ids) == Outcome(eventB, receiptB, ids)
  {
    hide SameEvent, SameReceipt, SameLog, At, ToInt, LowerOf, GraphTxHash, GraphContract, GraphBlock, Conclude,
      FindLog, LogsOf;
    EventReadsSame(eventA, eventB);
    if Identified(eventA) {
      var index := ToInt(At(eventA, "logIndex")).value;
      LogsRelated(receiptA, receiptB, index);
      if LogsOf(receiptA).Some? && FindLog(LogsOf(receiptA).value, index).Hit? {
        var x, y := FindLog(LogsOf(receiptA).value, index).log, FindLog(LogsOf(receiptB).value, index).log;
        assert SameLog(Obj(x), Obj(y), At(receiptA, "blockNumber")) by {
          SameLogReflexive(x, At(receiptA, "blockNumber"));
        }
        ConcludesSame(eventA, eventB, receiptA, receiptB, x, y, ids);
      }
    }
  }

  lemma SameLogReflexive(x: seq<Member>, z: Json)
    ensures SameLog(Obj(x), Obj(x), z)
  {
  }

  /** The spellings a number has: JSON integer, decimal text with or without a sign, and 0x text. */
  lemma NumberSpellings(n: nat)
    ensures ToInt(Int(n)) == ToInt(Text(Str(n))) == ToInt(Text("+" + Str(n))) == Some(n)
    ensures ToInt(Text("0x" + ToText(n, 16))) == Some(n)
    ensures ToInt(Int(0 - n as int)) == ToInt(Text("-" + Str(n))) == Some(0 - n as int)
  {
    hide OfText, ToText;
    var d, h := Str(n), "0x" + ToText(n, 16);
    ToTextCanonical(n, 10);
    ReadBack(n, 10);
    ReadBack(n, 16);
    assert h[2..] == ToText(n, 16) && h[..2] == "0x";
    assert IsDigit(d[0], 10);
    assert d[..1] == [d[0]];
    assert Canonical(d, 10);
    assert ("+" + d)[1..] == d && ("-" + d)[1..] == d && ("+" + d)[..1] == "+" && ("-" + d)[..1] == "-";
    assert ("+" + d)[0] == '+' && ("-" + d)[0] == '-';
  }

  // ---- fields the event does not have ----

  function Without(ms: seq<Member>, key: string): seq<Member> {
    if ms == [] then [] else if ms[0].key == key then Without(ms[1..], key) else [ms[0]] + Without(ms[1..], key)
  }

  lemma {:induction false} GetWithout(ms: seq<Member>, key: string, other: string)
    ensures Get(Without(ms, key), other) == if other == key then None else Get(ms, other)
  {
    if ms != [] {
      GetWithout(ms[1..], key, other);
    }
  }

  lemma WithoutReadsSame(event: seq<Member>, key: string)
    requires key == "blockHash" || key == "topics" || key == "data" || key == "blockNumber"
    ensures var less := Without(event, key);
      && GraphTxHash(less) == GraphTxHash(event) && GraphContract(less) == GraphContract(event)
      && At(less, "logIndex") == At(event, "logIndex") && FallbackBlock(less) == FallbackBlock(event)
      && At(less, "blockNumber") == (if key == "blockNumber" then Null else At(event, "blockNumber"))
      && At(less, "blockHash") == (if key == "blockHash" then Null else At(event, "blockHash"))
      && At(less, "data") == (if key == "data" then Null else At(event, "data"))
      && Get(less, "topics") == (if key == "topics" then None else Get(event, "topics"))
  {
    hide ToInt, Get;
    GetWithout(event, key, "transactionHash");
    GetWithout(event, key, "transaction");
    GetWithout(event, key, "address");
    GetWithout(event, key, "contractAddress");
    GetWithout(event, key, "pool");
    GetWithout(event, key, "logIndex");
    GetWithout(event, key, "blockNumber");
    GetWithout(event, key, "blockHash");
    GetWithout(event, key, "data");
    GetWithout(event, key, "topics");
  }

  /** An event that says less about its block hash, topics or data is not contradicted more. */
  lemma DroppingKeepsCorroborated(event: seq<Member>, receipt: seq<Member>, ids: seq<string>, key: string)
    requires key == "blockHash" || key == "topics" || key == "data"
    requires Outcome(event, receipt, ids).Some? && Outcome(event, receipt, ids).value.status == CORROBORATED
    ensures var r := Outcome(Without(event, key), receipt, ids); r.Some? && r.value.status == CORROBORATED
  {
    hide ToInt, LowerOf, GraphTxHash, GraphContract, At, Outcome, LogsOf, FallbackBlock, RpcBlock, RpcBlockHash;
    var less := Without(event, key);
    WithoutReadsSame(event, key);
    CorroboratedMeansAgrees(event, receipt, ids);
    CorroboratedMeansAgrees(less, receipt, ids);
    var logs, index := LogsOf(receipt).value, ToInt(At(event, "logIndex")).value;
    var k: nat :| FirstMatch(logs, index, k) && Agrees(event, receipt, logs[k].members);
    assert LowerOf(Null) == None by { NullIsSilent(); }
    assert Agrees(less, receipt, logs[k].members);
  }

  lemma NullIsSilent()
    ensures LowerOf(Null) == None && ToInt(Null) == None
  {
  }

  /**
   Dropping the block number exposes the one nested in `transaction`: a corroborated event stays
   so exactly when that number is unreadable or is the receipt's.
   */
  lemma DroppingBlockNumber(event: seq<Member>, receipt: seq<Member>, ids: seq<string>, k: nat)
    requires Identified(event) && LogsOf(receipt).Some?
    requires FirstMatch(LogsOf(receipt).value, ToInt(At(event, "logIndex")).value, k)
    requires Outcome(event, receipt, ids).Some? && Outcome(event, receipt, ids).value.status == CORROBORATED
    ensures var r, log := Outcome(Without(event, "blockNumber"), receipt, ids), LogsOf(receipt).value[k].members;
      r.Some? && r.value.status == CORROBORATED <==>
        (ToInt(FallbackBlock(event)).Some? ==> ToInt(FallbackBlock(event)) == RpcBlock(receipt, log))
  {
    hide ToInt, LowerOf, GraphTxHash, GraphContract, At, Outcome, LogsOf, FallbackBlock, RpcBlock, RpcBlockHash;
    var less := Without(event, "blockNumber");
    var logs, index := LogsOf(receipt).value, ToInt(At(event, "logIndex")).value;
    WithoutReadsSame(event, "blockNumber");
    CorroboratedMeansAgrees(event, receipt, ids);
    CorroboratedMeansAgrees(less, receipt, ids);
    forall i: nat | FirstMatch(logs, index, i) ensures logs[i].members == logs[k].members {
      FindLogIsFirstMatch(logs, index, i);
      FindLogIsFirstMatch(logs, index, k);
    }
    assert Agrees(event, receipt, logs[k].members);
  }

  // ---- the batch form ----

  /** `_extract_swaps`; None where Python raises on a value that is not a dict or not iterable. */
  function ExtractSwaps(payload: Option<Json>): Option<seq<seq<Member>>> {
    if payload.None? || !Truthy(payload.value) then Some([])
    else if !payload.value.Obj? then None
    else
      var outer := payload.value.members;
      var response := if Get(outer, "response").Some? then Get(outer, "response").value else payload.value;
      if Truthy(response) && !response.Obj? then None
      else
        var data := Field(response, "data");
        if Truthy(data) && !data.Obj? then None
        else
          var swaps := Field(data, "swaps");
          if !Truthy(swaps) then Some([])
          else if Iterated(swaps).None? then None
          else Some(Dicts(Iterated(swaps).value))
  }

  function Dicts(xs: seq<Json>): seq<seq<Member>> {
    if xs == [] then [] else (if xs[0].Obj? then [xs[0].members] else []) + Dicts(xs[1..])
  }

  /** The single result of a batch that cannot be compared. */
  function Verdict(status: Status, ids: seq<string>, txHash: Option<string>, warning: Warning): ReconciliationResult {
    ReconciliationResult(status, ids, txHash, None, None, None, None, [], [warning])
  }

  /** One result per swap, in order, unless some event raises. */
  method ReconcileGraphSwaps(graphPayload: Option<Json>, rpcPayload: Option<seq<Member>>, ids: seq<string>)
    returns (r: Option<seq<ReconciliationResult>>)
    ensures rpcPayload.None? ==> r == Some([Verdict(RPC_UNAVAILABLE, ids, None, RpcMissing)])
    ensures rpcPayload.Some? && ExtractSwaps(graphPayload).None? ==> r.None?
    ensures rpcPayload.Some? && ExtractSwaps(graphPayload) == Some([]) ==>
      r == Some([Verdict(INSUFFICIENT_DATA, ids, None, NoSwaps)])
    ensures rpcPayload.Some? && ExtractSwaps(graphPayload).Some? && ExtractSwaps(graphPayload).value != [] ==>
      var swaps, receipt := ExtractSwaps(graphPayload).value, At(rpcPayload.value, "receipt");
      if !Truthy(receipt) then r == Some([Verdict(RPC_UNAVAILABLE, ids, None, ReceiptMissing)])
      else if receipt.Obj? && !Truthy(At(receipt.members, "logs")) then
        r == Some([Verdict(RPC_UNAVAILABLE, ids, LowerOf(At(receipt.members, "transactionHash")), ReceiptMissing)])
      else if !receipt.Obj? then r.None?
      else
        && (r.Some? <==> forall s <- swaps :: Outcome(s, receipt.members, ids).Some?)
        && (r.Some? ==> |r.value| == |swaps|)
        && (r.Some? ==> forall i :: 0 <= i < |swaps| ==> Outcome(swaps[i], receipt.members, ids) == Some(r.value[i]))
    ensures r.Some? ==> forall x <- r.value :: x.status != INDEXER_LAG_SUSPECTED
  {
    hide Outcome, ExtractSwaps, Field;
    if rpcPayload.None? {
      return Some([Verdict(RPC_UNAVAILABLE, ids, None, RpcMissing)]);
    }
    var swaps := ExtractSwaps(graphPayload);
    if swaps.None? {
      return None;
    }
    if swaps.value == [] {
      return Some([Verdict(INSUFFICIENT_DATA, ids, None, NoSwaps)]);
    }
    var receipt := At(rpcPayload.value, "receipt");
    if Truthy(receipt) && !receipt.Obj? {
      return None;
    }
    if !Truthy(receipt) || !Truthy(At(receipt.members, "logs")) {
      var hash := if Truthy(receipt) then LowerOf(At(receipt.members, "transactionHash")) else None;
      return Some([Verdict(RPC_UNAVAILABLE, ids, hash, ReceiptMissing)]);
    }
    var results: seq<ReconciliationResult> := [];
    for i := 0 to |swaps.value|
      invariant |results| == i
      invariant forall j :: 0 <= j < i ==> Outcome(swaps.value[j], receipt.members, ids) == Some(results[j])
      invariant forall x <- results :: x.status != INDEXER_LAG_SUSPECTED
    {
      var one := ReconcileGraphEventWithReceipt(swaps.value[i], receipt.members, ids);
      if one.None? {
        assert swaps.value[i] in swaps.value;
        return None;
      }
      NeverIndexerLag(swaps.value[i], receipt.members, ids);
      results := results + [one.value];
    }
    return Some(results);
  }

  lemma NeverIndexerLag(event: seq<Member>, receipt: seq<Member>, ids: seq<string>)
    ensures Outcome(event, receipt, ids).Some? ==> Outcome(event, receipt, ids).value.status != INDEXER_LAG_SUSPECTED
  {
    hide ToInt, LowerOf, GraphTxHash, GraphContract, GraphBlock, At, LogsOf, ComparedFields, TopicsOf;
  }
}
