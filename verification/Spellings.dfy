/** Exactly which spellings of a number can be exchanged without ever changing a reconciliation's status. */
module Spellings {
  import opened Basics
  import opened Json
  import opened Numerals
  import opened Reconciliation
  import opened ReconciliationLaws
  import CanonicalJson

  /** Where a number stands that reconciliation reads. */
  datatype Place = EventIndex | EventBlock | TransactionBlock | LogIndex(at: nat) | LogBlock(at: nat) | ReceiptBlock

  /** `v[key] = x` where `v` is a dict. */
  function PutIn(v: Json, key: string, x: Json): Json {
    if v.Obj? then Obj(Put(v.members, key, x)) else v
  }

  function PutLog(receipt: seq<Member>, at: nat, key: string, x: Json): seq<Member> {
    var logs := At(receipt, "logs");
    if logs.Arr? && at < |logs.items| then
      Put(receipt, "logs", Arr(logs.items[at := PutIn(logs.items[at], key, x)]))
    else receipt
  }

  /** The event and the receipt with `x` written at a place. */
  function EventWith(place: Place, event: seq<Member>, x: Json): seq<Member> {
    match place
    case EventIndex => Put(event, "logIndex", x)
    case EventBlock => Put(event, "blockNumber", x)
    case TransactionBlock => Put(event, "transaction", PutIn(At(event, "transaction"), "blockNumber", x))
    case _ => event
  }

  function ReceiptWith(place: Place, receipt: seq<Member>, x: Json): seq<Member> {
    match place
    case LogIndex(at) => PutLog(receipt, at, "logIndex", x)
    case LogBlock(at) => PutLog(receipt, at, "blockNumber", x)
    case ReceiptBlock => Put(receipt, "blockNumber", x)
    case _ => receipt
  }

  function StatusWith(place: Place, event: seq<Member>, receipt: seq<Member>, ids: seq<string>, x: Json)
    : Option<Status>
  {
    var o := Outcome(EventWith(place, event, x), ReceiptWith(place, receipt, x), ids);
    if o.Some? then Some(o.value.status) else None
  }

  /** Whatever event and receipt they stand in, with `z` as the receipt's block number, `v` and `w` give one status. */
  ghost predicate Interchangeable(place: Place, v: Json, w: Json, z: Json) {
    forall event, receipt, ids :: At(receipt, "blockNumber") == z ==>
      StatusWith(place, event, receipt, ids, v) == StatusWith(place, event, receipt, ids, w)
  }

  /** No prefix changes its case; a log's block number must moreover defer, or not, without difference. */
  predicate SpellingKept(place: Place, v: Json, w: Json, z: Json) {
    if place.LogBlock? then KeptUnder(v, w, z) else CapitalPrefix(v) == CapitalPrefix(w)
  }

  // ---- kept spellings are interchangeable ----

  lemma {:induction false} PutAligned(ms: seq<Member>, key: string, v: Json, w: Json)
    ensures var a, b := Put(ms, key, v), Put(ms, key, w);
      |a| == |b| && forall i :: 0 <= i < |a| ==>
        a[i].key == b[i].key && (a[i] == b[i] || (a[i] == Member(key, v) && b[i] == Member(key, w)))
  {
    if ms != [] && ms[0].key != key {
      PutAligned(ms[1..], key, v, w);
    }
  }

  lemma EventsRelated(place: Place, event: seq<Member>, v: Json, w: Json)
    requires Renumbered(v, w)
    ensures SameEvent(EventWith(place, event, v), EventWith(place, event, w))
  {
    hide SameLeaf, Get;
    LeafSelf();
    assert SameLeaf("logIndex", v, w) && SameLeaf("blockNumber", v, w) by { NumberLeaf(v, w); }
    match place
    case EventIndex => PutAligned(event, "logIndex", v, w);
    case EventBlock => PutAligned(event, "blockNumber", v, w);
    case TransactionBlock =>
      var tx := At(event, "transaction");
      PutAligned(event, "transaction", PutIn(tx, "blockNumber", v), PutIn(tx, "blockNumber", w));
      if tx.Obj? {
        PutAligned(tx.members, "blockNumber", v, w);
      }
    case _ =>
  }

  lemma NumberLeaf(v: Json, w: Json)
    requires Renumbered(v, w)
    ensures SameLeaf("logIndex", v, w) && SameLeaf("blockNumber", v, w)
  {
  }

  lemma ReceiptReflexive(receipt: seq<Member>)
    ensures SameReceipt(receipt, receipt)
  {
    hide Written, CapitalPrefix;
  }

  lemma LogLeafReflexive(z: Json)
    ensures forall key, x :: SameLogLeaf(key, x, x, z)
  {
  }

  lemma LogAligned(log: Json, key: string, v: Json, w: Json, z: Json)
    requires SameLogLeaf(key, v, w, z)
    ensures SameLog(PutIn(log, key, v), PutIn(log, key, w), z)
  {
    hide SameLogLeaf;
    LogLeafReflexive(z);
    if log.Obj? {
      PutAligned(log.members, key, v, w);
    }
  }

  lemma ItemsAligned(items: seq<Json>, at: nat, key: string, v: Json, w: Json, z: Json)
    requires at < |items| && SameLogLeaf(key, v, w, z)
    ensures SameLogs(Arr(items[at := PutIn(items[at], key, v)]), Arr(items[at := PutIn(items[at], key, w)]), z)
  {
    hide SameLog, PutIn, SameLogLeaf;
    assert forall x: Json :: SameLog(x, x, z) by { AnyLogReflexive(z); }
    LogAligned(items[at], key, v, w, z);
  }

  lemma AnyLogReflexive(z: Json)
    ensures forall x :: SameLog(x, x, z)
  {
  }

  lemma ReceiptAligned(receipt: seq<Member>, u: Json, v: Json)
    requires SameLogs(u, v, At(receipt, "blockNumber"))
    ensures SameReceipt(Put(receipt, "logs", u), Put(receipt, "logs", v))
  {
    hide SameLogs, SameLeaf, Get;
    LeafSelf();
    LogsSelf(At(receipt, "blockNumber"));
    PutAligned(receipt, "logs", u, v);
    PutOther(receipt, "logs", u, "blockNumber");
  }

  lemma LeafSelf()
    ensures forall key, x :: SameLeaf(key, x, x)
  {
  }

  lemma LogsSelf(z: Json)
    ensures forall x :: SameLogs(x, x, z)
  {
  }

  lemma LogsAligned(receipt: seq<Member>, at: nat, key: string, v: Json, w: Json)
    requires SameLogLeaf(key, v, w, At(receipt, "blockNumber"))
    ensures SameReceipt(PutLog(receipt, at, key, v), PutLog(receipt, at, key, w))
  {
    hide SameLogs, SameReceipt, SameLogLeaf, At;
    var logs, z := At(receipt, "logs"), At(receipt, "blockNumber");
    if logs.Arr? && at < |logs.items| {
      ItemsAligned(logs.items, at, key, v, w, z);
      ReceiptAligned(receipt, Arr(logs.items[at := PutIn(logs.items[at], key, v)]),
                     Arr(logs.items[at := PutIn(logs.items[at], key, w)]));
    } else {
      ReceiptReflexive(receipt);
    }
  }

  lemma {:induction false} PutOther(ms: seq<Member>, key: string, x: Json, other: string)
    ensures Get(Put(ms, key, x), other) == if other == key then Some(x) else Get(ms, other)
  {
    if ms != [] && ms[0].key != key {
      PutOther(ms[1..], key, x, other);
    }
  }

  lemma ReceiptsRelated(place: Place, receipt: seq<Member>, v: Json, w: Json)
    requires SameNumber(v, w) && SpellingKept(place, v, w, At(receipt, "blockNumber"))
    ensures SameReceipt(ReceiptWith(place, receipt, v), ReceiptWith(place, receipt, w))
  {
    hide PutLog, SameReceipt, Written, CapitalPrefix, Truthy;
    match place
    case LogIndex(at) => LogsAligned(receipt, at, "logIndex", v, w);
    case LogBlock(at) => LogsAligned(receipt, at, "blockNumber", v, w);
    case ReceiptBlock => ReceiptBlockRelated(receipt, v, w);
    case _ => ReceiptReflexive(receipt);
  }

  lemma ReceiptBlockRelated(receipt: seq<Member>, v: Json, w: Json)
    requires Renumbered(v, w)
    ensures SameReceipt(Put(receipt, "blockNumber", v), Put(receipt, "blockNumber", w))
  {
    hide SameLeaf, SameLogs;
    LeafSelf();
    NumberLeaf(v, w);
    LogsSelf(At(Put(receipt, "blockNumber", v), "blockNumber"));
    PutAligned(receipt, "blockNumber", v, w);
  }

  lemma KeptIsInterchangeable(place: Place, v: Json, w: Json, z: Json)
    requires SameNumber(v, w) && SpellingKept(place, v, w, z)
    ensures Interchangeable(place, v, w, z)
  {
    hide Outcome, SameEvent, SameReceipt, EventWith, ReceiptWith, Written, CapitalPrefix;
    forall event, receipt, ids: seq<string> | At(receipt, "blockNumber") == z
      ensures StatusWith(place, event, receipt, ids, v) == StatusWith(place, event, receipt, ids, w)
    {
      if place.LogBlock? {
        assert EventWith(place, event, v) == EventWith(place, event, w) by { EventUntouched(place, event, v, w); }
        EventReflexive(EventWith(place, event, v));
      } else {
        EventsRelated(place, event, v, w);
      }
      ReceiptsRelated(place, receipt, v, w);
      SpellingIrrelevant(EventWith(place, event, v), EventWith(place, event, w),
                         ReceiptWith(place, receipt, v), ReceiptWith(place, receipt, w), ids);
    }
  }

  lemma EventUntouched(place: Place, event: seq<Member>, v: Json, w: Json)
    requires place.LogBlock?
    ensures EventWith(place, event, v) == EventWith(place, event, w)
  {
  }

  lemma EventReflexive(event: seq<Member>)
    ensures SameEvent(event, event)
  {
    hide Written, CapitalPrefix;
  }

  // ---- other spellings are told apart ----

  function WitnessEvent(index: Json, block: Json, nested: Json): seq<Member> {
    [Member("transactionHash", Text("0xa")), Member("address", Text("0xb")), Member("logIndex", index),
     Member("blockNumber", block), Member("transaction", Obj([Member("blockNumber", nested)]))]
  }

  function WitnessLog(index: Json, block: Json): seq<Member> {
    [Member("address", Text("0xb")), Member("logIndex", index), Member("blockNumber", block)]
  }

  /** A receipt whose only telling log stands at a given position. */
  function WitnessReceipt(at: nat, log: seq<Member>, block: Json): seq<Member> {
    [Member("transactionHash", Text("0xa")), Member("blockNumber", block),
     Member("logs", Arr(Repeat(Obj([]), at) + [Obj(log)]))]
  }

  lemma EventFields(index: Json, block: Json, nested: Json)
    ensures var event := WitnessEvent(index, block, nested);
      && DistinctKeys(event)
      && At(event, "transactionHash") == Text("0xa") && At(event, "address") == Text("0xb")
      && At(event, "logIndex") == index && At(event, "blockNumber") == block
      && At(event, "transaction") == Obj([Member("blockNumber", nested)])
      && At(event, "blockHash") == At(event, "data") == Null && Get(event, "topics").None?
  {
    hide Get;
    var ms := WitnessEvent(index, block, nested);
    assert |ms[0].key| == 15 && |ms[1].key| == 7 && |ms[2].key| == 8 && |ms[3].key| == 11 && |ms[4].key| == 11;
    assert ms[3].key[0] == 'b' && ms[4].key[0] == 't';
    CanonicalJson.GetAt(ms, 0);
    CanonicalJson.GetAt(ms, 1);
    CanonicalJson.GetAt(ms, 2);
    CanonicalJson.GetAt(ms, 3);
    CanonicalJson.GetAt(ms, 4);
    CanonicalJson.GetMember(ms, "blockHash");
    CanonicalJson.GetMember(ms, "data");
    CanonicalJson.GetMember(ms, "topics");
    assert |"blockHash"| == 9 && |"data"| == 4 && |"topics"| == 6;
  }

  lemma LogFields(index: Json, block: Json)
    ensures var log := WitnessLog(index, block);
      && DistinctKeys(log)
      && At(log, "address") == Text("0xb") && At(log, "logIndex") == index && At(log, "blockNumber") == block
      && At(log, "blockHash") == At(log, "data") == Null && Get(log, "topics").None?
  {
    hide Get;
    var ms := WitnessLog(index, block);
    assert |ms[0].key| == 7 && |ms[1].key| == 8 && |ms[2].key| == 11;
    CanonicalJson.GetAt(ms, 0);
    CanonicalJson.GetAt(ms, 1);
    CanonicalJson.GetAt(ms, 2);
    CanonicalJson.GetMember(ms, "blockHash");
    CanonicalJson.GetMember(ms, "data");
    CanonicalJson.GetMember(ms, "topics");
    assert |"blockHash"| == 9 && |"data"| == 4 && |"topics"| == 6;
  }

  lemma ReceiptFields(at: nat, log: seq<Member>, block: Json)
    ensures var receipt := WitnessReceipt(at, log, block);
      && DistinctKeys(receipt)
      && At(receipt, "transactionHash") == Text("0xa") && At(receipt, "blockNumber") == block
      && At(receipt, "logs") == Arr(Repeat(Obj([]), at) + [Obj(log)])
      && LogsOf(receipt) == Some(Repeat(Obj([]), at) + [Obj(log)])
  {
    hide Get;
    var ms := WitnessReceipt(at, log, block);
    assert |ms[0].key| == 15 && |ms[1].key| == 11 && |ms[2].key| == 4;
    CanonicalJson.GetAt(ms, 0);
    CanonicalJson.GetAt(ms, 1);
    CanonicalJson.GetAt(ms, 2);
  }

  /** The number the witness event claims, and the one the receipt gives. */
  function Claimed(block: Json, nested: Json): Option<int> {
    ToInt(if block == Null then nested else block)
  }

  function Given(logBlock: Json, receiptBlock: Json): Option<int> {
    ToInt(OrElse(logBlock, receiptBlock))
  }

  lemma {:induction false} FindPadded(at: nat, log: seq<Member>, index: int)
    ensures FindLog(Repeat(Obj([]), at) + [Obj(log)], index) ==
      if HasIndex(Obj(log), index) then Hit(log) else NotFound
    decreases at
  {
    var logs := Repeat(Obj([]), at) + [Obj(log)];
    if at == 0 {
      assert logs == [Obj(log)] && logs[1..] == [];
    } else {
      assert logs[1..] == Repeat(Obj([]), at - 1) + [Obj(log)];
      assert !HasIndex(Obj([]), index);
      FindPadded(at - 1, log, index);
    }
  }

  lemma WitnessReads(index: Json, block: Json, nested: Json)
    ensures var event := WitnessEvent(index, block, nested);
      && GraphTxHash(event) == Some("0xa") && GraphContract(event) == Some("0xb")
      && GraphBlock(event) == Claimed(block, nested)
      && LowerOf(At(event, "blockHash")) == LowerOf(At(event, "data")) == None && TopicsOf(event) == Some([])
  {
    hide Get, ToInt;
    EventFields(index, block, nested);
    NestedField(nested);
    assert Lower("0xa") == "0xa" && Lower("0xb") == "0xb";
  }

  lemma NestedField(nested: Json)
    ensures At([Member("blockNumber", nested)], "blockNumber") == nested
  {
  }

  /** The status of the witness, as a matter of four numbers read. */
  lemma WitnessStatus(index: Json, block: Json, nested: Json, at: nat, logIndex: Json, logBlock: Json,
                      receiptBlock: Json, ids: seq<string>)
    ensures var o := Outcome(WitnessEvent(index, block, nested),
                             WitnessReceipt(at, WitnessLog(logIndex, logBlock), receiptBlock), ids);
      && o.Some?
      && o.value.status ==
        if ToInt(index).None? then INSUFFICIENT_DATA
        else if ToInt(logIndex) != ToInt(index) then MISMATCH
        else if Claimed(block, nested).Some? && Claimed(block, nested) != Given(logBlock, receiptBlock) then MISMATCH
        else CORROBORATED
  {
    hide ToInt, LowerOf, GraphTxHash, GraphContract, GraphBlock, At, WitnessEvent, WitnessLog, WitnessReceipt, Claimed,
      Given, FindLog, Conclude, LogsOf;
    var event, log := WitnessEvent(index, block, nested), WitnessLog(logIndex, logBlock);
    var receipt := WitnessReceipt(at, log, receiptBlock);
    EventFields(index, block, nested);
    LogFields(logIndex, logBlock);
    ReceiptFields(at, log, receiptBlock);
    WitnessReads(index, block, nested);
    if ToInt(index).Some? {
      FindPadded(at, log, ToInt(index).value);
      if ToInt(logIndex) == ToInt(index) {
        WitnessConcludes(index, block, nested, at, logIndex, logBlock, receiptBlock, ids);
      }
    }
  }

  lemma WitnessConcludes(index: Json, block: Json, nested: Json, at: nat, logIndex: Json, logBlock: Json,
                         receiptBlock: Json, ids: seq<string>)
    requires ToInt(index).Some? && ToInt(logIndex) == ToInt(index)
    ensures var event, log := WitnessEvent(index, block, nested), WitnessLog(logIndex, logBlock);
      var o := Conclude(event, WitnessReceipt(at, log, receiptBlock), log, ids);
      && o.Some?
      && o.value.status ==
        if Claimed(block, nested).Some? && Claimed(block, nested) != Given(logBlock, receiptBlock) then MISMATCH
        else CORROBORATED
  {
    hide ToInt, GraphTxHash, GraphContract, GraphBlock, At, WitnessEvent, WitnessLog, WitnessReceipt, Claimed, Conclude,
      ComparedFields, DifferingFields;
    var event, log := WitnessEvent(index, block, nested), WitnessLog(logIndex, logBlock);
    var receipt := WitnessReceipt(at, log, receiptBlock);
    EventFields(index, block, nested);
    LogFields(logIndex, logBlock);
    ReceiptFields(at, log, receiptBlock);
    WitnessReads(index, block, nested);
    assert Lower("0xa") == "0xa" && Lower("0xb") == "0xb";
    assert TopicsOf(log) == Some([]);
    assert RpcBlock(receipt, log) == Given(logBlock, receiptBlock);
    Concluded(event, receipt, log, ids);
    ConcludedStatus(event, receipt, log, ids);
  }

  lemma ConcludedStatus(event: seq<Member>, receipt: seq<Member>, log: seq<Member>, ids: seq<string>)
    requires TopicsOf(event).Some? && TopicsOf(log).Some?
    ensures var o := Conclude(event, receipt, log, ids); o.Some? && o.value.status in {CORROBORATED, MISMATCH}
  {
    hide ToInt, GraphTxHash, GraphContract, GraphBlock, At, ComparedFields, DifferingFields, TopicsOf;
  }

  lemma {:induction false} PutPresent(ms: seq<Member>, i: nat, x: Json)
    requires DistinctKeys(ms) && i < |ms|
    ensures Put(ms, ms[i].key, x) == ms[i := Member(ms[i].key, x)]
  {
    if i > 0 {
      PutPresent(ms[1..], i - 1, x);
      assert ms == [ms[0]] + ms[1..];
    }
  }

  lemma EventRewritten(index: Json, block: Json, nested: Json, x: Json)
    ensures var event := WitnessEvent(index, block, nested);
      && EventWith(EventIndex, event, x) == WitnessEvent(x, block, nested)
      && EventWith(EventBlock, event, x) == WitnessEvent(index, x, nested)
      && EventWith(TransactionBlock, event, x) == WitnessEvent(index, block, x)
  {
    var event := WitnessEvent(index, block, nested);
    EventFields(index, block, nested);
    PutPresent(event, 2, x);
    PutPresent(event, 3, x);
    PutPresent(event, 4, Obj([Member("blockNumber", x)]));
    assert PutIn(At(event, "transaction"), "blockNumber", x) == Obj([Member("blockNumber", x)]);
  }

  lemma ReceiptRewritten(at: nat, index: Json, logBlock: Json, block: Json, x: Json)
    ensures var receipt := WitnessReceipt(at, WitnessLog(index, logBlock), block);
      && ReceiptWith(LogIndex(at), receipt, x) == WitnessReceipt(at, WitnessLog(x, logBlock), block)
      && ReceiptWith(LogBlock(at), receipt, x) == WitnessReceipt(at, WitnessLog(index, x), block)
      && ReceiptWith(ReceiptBlock, receipt, x) == WitnessReceipt(at, WitnessLog(index, logBlock), x)
  {
    hide Get;
    var log := WitnessLog(index, logBlock);
    var receipt := WitnessReceipt(at, log, block);
    LogFields(index, logBlock);
    ReceiptFields(at, log, block);
    PutPresent(receipt, 1, x);
    PutPresent(log, 1, x);
    PutPresent(log, 2, x);
    assert PutIn(Obj(log), "logIndex", x) == Obj(WitnessLog(x, logBlock));
    assert PutIn(Obj(log), "blockNumber", x) == Obj(WitnessLog(index, x));
    LogReplaced(at, log, block, WitnessLog(x, logBlock));
    LogReplaced(at, log, block, WitnessLog(index, x));
  }

  lemma LogReplaced(at: nat, log: seq<Member>, block: Json, other: seq<Member>)
    ensures var receipt := WitnessReceipt(at, log, block); var logs := At(receipt, "logs");
      && logs.Arr? && at < |logs.items| && logs.items[at] == Obj(log)
      && Put(receipt, "logs", Arr(logs.items[at := Obj(other)])) == WitnessReceipt(at, other, block)
  {
    var receipt := WitnessReceipt(at, log, block);
    ReceiptFields(at, log, block);
    var items := Repeat(Obj([]), at) + [Obj(log)];
    assert items[at := Obj(other)] == Repeat(Obj([]), at) + [Obj(other)];
    PutPresent(receipt, 2, Arr(items[at := Obj(other)]));
  }

  /** A nonzero number other than `n`. */
  function Another(n: int): (m: int)
    ensures m != n && m > 0
  {
    if n == 1 then 2 else 1
  }

  lemma IndexToldApart(place: Place, v: Json, w: Json, z: Json) returns (event: seq<Member>, receipt: seq<Member>)
    requires (place.EventIndex? || place.LogIndex?) && SameNumber(v, w) && !CapitalPrefix(v) && CapitalPrefix(w)
    ensures At(receipt, "blockNumber") == z
    ensures StatusWith(place, event, receipt, [], v) != StatusWith(place, event, receipt, [], w)
  {
    hide ToInt, Written, CapitalPrefix, Outcome, WitnessEvent, WitnessReceipt, WitnessLog, EventWith, ReceiptWith;
    ReadUnlessCapital(v);
    ReadUnlessCapital(w);
    var n, one := Written(v).value, Int(1);
    PlainNumbers(n);
    if place.EventIndex? {
      event, receipt := Told(place, one, Null, Null, 0, Int(n), Null, z, v, w);
      WitnessStatus(v, Null, Null, 0, Int(n), Null, z, []);
      WitnessStatus(w, Null, Null, 0, Int(n), Null, z, []);
    } else {
      event, receipt := Told(place, Int(n), Null, Null, place.at, one, Null, z, v, w);
      WitnessStatus(Int(n), Null, Null, place.at, v, Null, z, []);
      WitnessStatus(Int(n), Null, Null, place.at, w, Null, z, []);
    }
  }

  lemma ClaimToldApart(place: Place, v: Json, w: Json, z: Json) returns (event: seq<Member>, receipt: seq<Member>)
    requires (place.EventBlock? || place.TransactionBlock?) && SameNumber(v, w) && !CapitalPrefix(v) && CapitalPrefix(w)
    ensures At(receipt, "blockNumber") == z
    ensures StatusWith(place, event, receipt, [], v) != StatusWith(place, event, receipt, [], w)
  {
    hide ToInt, Written, CapitalPrefix, Outcome, WitnessEvent, WitnessReceipt, WitnessLog, EventWith, ReceiptWith;
    ReadUnlessCapital(v);
    ReadUnlessCapital(w);
    var n, one := Written(v).value, Int(1);
    PlainNumbers(n);
    if place.EventBlock? {
      event, receipt := Told(place, one, one, Null, 0, one, Int(Another(n)), z, v, w);
      WitnessStatus(one, v, Null, 0, one, Int(Another(n)), z, []);
      WitnessStatus(one, w, Null, 0, one, Int(Another(n)), z, []);
    } else {
      event, receipt := Told(place, one, Null, one, 0, one, Int(Another(n)), z, v, w);
      WitnessStatus(one, Null, v, 0, one, Int(Another(n)), z, []);
      WitnessStatus(one, Null, w, 0, one, Int(Another(n)), z, []);
    }
  }

  lemma ReceiptBlockToldApart(place: Place, v: Json, w: Json, z: Json)
    returns (event: seq<Member>, receipt: seq<Member>)
    requires place.ReceiptBlock? && SameNumber(v, w) && !CapitalPrefix(v) && CapitalPrefix(w)
    ensures At(receipt, "blockNumber") == z
    ensures StatusWith(place, event, receipt, [], v) != StatusWith(place, event, receipt, [], w)
  {
    hide ToInt, Written, CapitalPrefix, Outcome, WitnessEvent, WitnessReceipt, WitnessLog, EventWith, ReceiptWith;
    ReadUnlessCapital(v);
    ReadUnlessCapital(w);
    var n, one := Written(v).value, Int(1);
    PlainNumbers(n);
    event, receipt := Told(place, one, Int(n), Null, 0, one, Null, z, v, w);
    WitnessStatus(one, Int(n), Null, 0, one, Null, v, []);
    WitnessStatus(one, Int(n), Null, 0, one, Null, w, []);
  }

  lemma LogBlockToldApart(at: nat, v: Json, w: Json, z: Json) returns (event: seq<Member>, receipt: seq<Member>)
    requires SameNumber(v, w) && !KeptUnder(v, w, z)
    ensures At(receipt, "blockNumber") == z
    ensures StatusWith(LogBlock(at), event, receipt, [], v) != StatusWith(LogBlock(at), event, receipt, [], w)
  {
    hide ToInt, Written, KeptUnder, Outcome, WitnessEvent, WitnessReceipt, WitnessLog, EventWith, ReceiptWith, Given;
    var given := if Given(v, z).Some? then Given(v, z) else Given(w, z);
    GivenDiffers(v, w, z);
    PlainNumbers(given.value);
    var one, claim := Int(1), Int(given.value);
    event, receipt := Told(LogBlock(at), one, claim, Null, at, one, one, z, v, w);
    WitnessStatus(one, claim, Null, at, one, v, z, []);
    WitnessStatus(one, claim, Null, at, one, w, z, []);
  }

  /** A context that tells two spellings apart, one of them readable. */
  lemma ToldApart(place: Place, v: Json, w: Json, z: Json) returns (event: seq<Member>, receipt: seq<Member>)
    requires SameNumber(v, w) && !CapitalPrefix(v) && !SpellingKept(place, v, w, z)
    ensures At(receipt, "blockNumber") == z
    ensures StatusWith(place, event, receipt, [], v) != StatusWith(place, event, receipt, [], w)
  {
    hide StatusWith, SameNumber, CapitalPrefix, KeptUnder;
    if place.LogBlock? {
      event, receipt := LogBlockToldApart(place.at, v, w, z);
    } else if place.EventIndex? || place.LogIndex? {
      event, receipt := IndexToldApart(place, v, w, z);
    } else if place.ReceiptBlock? {
      event, receipt := ReceiptBlockToldApart(place, v, w, z);
    } else {
      event, receipt := ClaimToldApart(place, v, w, z);
    }
  }

  lemma PlainNumbers(n: int)
    ensures ToInt(Int(n)) == Some(n) && ToInt(Int(1)) == Some(1) && ToInt(Null) == None
    ensures Int(Another(n)) != Null && ToInt(Int(Another(n))) == Some(Another(n)) && Truthy(Int(Another(n)))
    ensures !Truthy(Null)
  {
  }

  /** Where the spelling of a log's block number is not kept, the receipt's side gives different numbers. */
  lemma GivenDiffers(v: Json, w: Json, z: Json)
    requires SameNumber(v, w) && !KeptUnder(v, w, z)
    ensures Given(v, z) != Given(w, z)
  {
    hide ToInt, Written;
    ReadUnlessCapital(v);
    ReadUnlessCapital(w);
    ReadUnlessCapital(z);
    if !Truthy(v) { FalseNumberIsZero(v); }
    if !Truthy(w) { FalseNumberIsZero(w); }
  }

  /** The witness with `v` or `w` written at a place is a witness again. */
  lemma Told(place: Place, index: Json, block: Json, nested: Json, at: nat, logIndex: Json, logBlock: Json, z: Json,
             v: Json, w: Json)
    returns (event: seq<Member>, receipt: seq<Member>)
    requires place.LogIndex? || place.LogBlock? ==> place.at == at
    ensures event == WitnessEvent(index, block, nested)
    ensures receipt == WitnessReceipt(at, WitnessLog(logIndex, logBlock), z) && At(receipt, "blockNumber") == z
    ensures forall x :: x == v || x == w ==>
      && EventWith(place, event, x) == WitnessEvent(
          if place.EventIndex? then x else index, if place.EventBlock? then x else block,
          if place.TransactionBlock? then x else nested)
      && ReceiptWith(place, receipt, x) == WitnessReceipt(at, WitnessLog(
          if place.LogIndex? then x else logIndex, if place.LogBlock? then x else logBlock),
          if place.ReceiptBlock? then x else z)
  {
    event, receipt := WitnessEvent(index, block, nested), WitnessReceipt(at, WitnessLog(logIndex, logBlock), z);
    ReceiptFields(at, WitnessLog(logIndex, logBlock), z);
    forall x | x == v || x == w
      ensures EventWith(place, event, x) == WitnessEvent(
          if place.EventIndex? then x else index, if place.EventBlock? then x else block,
          if place.TransactionBlock? then x else nested)
      ensures ReceiptWith(place, receipt, x) == WitnessReceipt(at, WitnessLog(
          if place.LogIndex? then x else logIndex, if place.LogBlock? then x else logBlock),
          if place.ReceiptBlock? then x else z)
    {
      hide WitnessEvent, WitnessReceipt, WitnessLog, Get, Put, At;
      EventRewritten(index, block, nested, x);
      ReceiptRewritten(at, logIndex, logBlock, z, x);
    }
  }

  /**
   Two spellings of a number give the same status in every event and receipt exactly when the 0x
   prefix keeps its case and, for a log's block number, both or neither defer to the receipt's, or
   deferring gives the same number.
   */
  lemma InterchangeableIffKept(place: Place, v: Json, w: Json, z: Json)
    requires SameNumber(v, w)
    ensures Interchangeable(place, v, w, z) <==> SpellingKept(place, v, w, z)
  {
    hide Interchangeable, StatusWith, Written, CapitalPrefix, KeptUnder;
    if SpellingKept(place, v, w, z) {
      KeptIsInterchangeable(place, v, w, z);
    } else {
      BothCapitalKept(place, v, w, z);
      if CapitalPrefix(v) {
        KeptSymmetric(v, w, z);
        var event, receipt := ToldApart(place, w, v, z);
        NotInterchangeable(place, v, w, z, event, receipt);
      } else {
        var event, receipt := ToldApart(place, v, w, z);
        NotInterchangeable(place, v, w, z, event, receipt);
      }
    }
  }

  lemma NotInterchangeable(place: Place, v: Json, w: Json, z: Json, event: seq<Member>, receipt: seq<Member>)
    requires At(receipt, "blockNumber") == z
    requires StatusWith(place, event, receipt, [], v) != StatusWith(place, event, receipt, [], w)
    ensures !Interchangeable(place, v, w, z)
  {
  }

  lemma BothCapitalKept(place: Place, v: Json, w: Json, z: Json)
    ensures CapitalPrefix(v) && CapitalPrefix(w) ==> SpellingKept(place, v, w, z)
  {
  }

  lemma KeptSymmetric(v: Json, w: Json, z: Json)
    ensures KeptUnder(v, w, z) == KeptUnder(w, v, z)
  {
  }

  // ---- the two spellings that fail, on one event and receipt ----

  lemma SmallNumerals()
    ensures ToInt(Text("0x1")) == Some(1) && ToInt(Text("0X1")) == None && ToInt(Text("0x0")) == Some(0)
    ensures ToInt(Int(0)) == Some(0) && ToInt(Int(1)) == Some(1) && ToInt(Int(5)) == Some(5) && ToInt(Null) == None
  {
    assert "0x1"[2..] == "1" && "0X1"[2..] == "1" && "0x0"[2..] == "0";
    assert OfText("1", 16) == 1 by { OfTextSnoc([], '1', 16); assert [] + ['1'] == "1"; }
    assert OfText("0", 16) == 0 by { OfTextSnoc([], '0', 16); assert [] + ['0'] == "0"; }
    ReadUnlessCapital(Text("0x1"));
    ReadUnlessCapital(Text("0X1"));
    ReadUnlessCapital(Text("0x0"));
  }

  /** "0x1" and "0X1" are one number, but only the first one identifies the log. */
  lemma CapitalPrefixMatters(ids: seq<string>)
    ensures var receipt := WitnessReceipt(0, WitnessLog(Int(1), Null), Null);
      var a, b := Outcome(WitnessEvent(Text("0x1"), Null, Null), receipt, ids),
                  Outcome(WitnessEvent(Text("0X1"), Null, Null), receipt, ids);
      && a.Some? && a.value.status == CORROBORATED
      && b.Some? && b.value.status == INSUFFICIENT_DATA
  {
    hide ToInt, Outcome, WitnessEvent, WitnessReceipt, WitnessLog;
    SmallNumerals();
    WitnessStatus(Text("0x1"), Null, Null, 0, Int(1), Null, Null, ids);
    WitnessStatus(Text("0X1"), Null, Null, 0, Int(1), Null, Null, ids);
  }

  /** 0 and "0x0" are one number, but in a log only the first one defers to the receipt's block number. */
  lemma ZeroBlockNumberMatters(ids: seq<string>)
    ensures var event := WitnessEvent(Int(1), Int(0), Null);
      var a, b := Outcome(event, WitnessReceipt(0, WitnessLog(Int(1), Text("0x0")), Int(5)), ids),
                  Outcome(event, WitnessReceipt(0, WitnessLog(Int(1), Int(0)), Int(5)), ids);
      && a.Some? && a.value.status == CORROBORATED
      && b.Some? && b.value.status == MISMATCH
  {
    hide ToInt, Outcome, WitnessEvent, WitnessReceipt, WitnessLog;
    SmallNumerals();
    WitnessStatus(Int(1), Int(0), Null, 0, Int(1), Text("0x0"), Int(5), ids);
    WitnessStatus(Int(1), Int(0), Null, 0, Int(1), Int(0), Int(5), ids);
  }
}
