/** Evidence acquisition: what the status of an L0 or L1 record entitles a reader to believe. */
module Acquisition {
  import opened Basics
  import opened Json
  import opened Vault
  import opened RpcClient
  import CanonicalJson
  import Utf8
  import VaultRuns

  /** `EvidenceStatus`; FAILURE and NOT_KNOWN are its FAILED and UNKNOWN. */
  datatype EvidenceStatus = COMPLETE | PARTIAL | WARNING | FAILURE | NOT_KNOWN

  datatype EvidenceRecord = EvidenceRecord(
    evidenceId: string, rawPath: Path, rawSha256: string, status: EvidenceStatus, warnings: seq<string>)

  // ---- The Graph ----

  /** The body is None when it is not JSON. */
  datatype GraphReply = GraphTimedOut | GraphHttpError | GraphUnreachable | GraphBody(body: Option<Json>)

  datatype GraphAnswer = GraphAnswer(payload: Json, hasErrors: bool, meta: Option<Meta>, warnings: seq<string>)

  datatype Meta = Meta(blockNumber: Json, blockHash: Json, deployment: Json, hasIndexingErrors: Json)

  /** `_meta` at the root of the data, or else inside the first dict that has one. */
  function FindMeta(data: seq<Member>): Json {
    if Field(Obj(data), "_meta") != Null then Field(Obj(data), "_meta") else NestedMeta(data)
  }

  function NestedMeta(data: seq<Member>): Json {
    if data == [] then Null
    else if data[0].value.Obj? && Get(data[0].value.members, "_meta").Some? then
      Get(data[0].value.members, "_meta").value
    else NestedMeta(data[1..])
  }

  /** `_extract_meta`: Raised where the response is not shaped like dicts. */
  function ExtractMeta(body: Json): CallResult<Option<Meta>> {
    var data := Field(body, "data");
    if Truthy(data) && !data.Obj? then Raised
    else
      var raw := if Truthy(data) then FindMeta(data.members) else Null;
      if !Truthy(raw) then Value(None)
      else if !raw.Obj? || !GetOr(raw.members, "block", Obj([])).Obj? then Raised
      else
        var block := GetOr(raw.members, "block", Obj([]));
        Value(Some(Meta(Field(block, "number"), Field(block, "hash"), Field(raw, "deployment"),
                        GetOr(raw.members, "hasIndexingErrors", Bool(false)))))
  }

  predicate IndexingErrorsReported(meta: Option<Meta>) {
    meta.Some? && Truthy(meta.value.hasIndexingErrors)
  }

  /** Every GraphQL error must be a dict to be described. */
  predicate Describable(errors: Json) {
    errors.Arr? && forall e <- errors.items :: e.Obj?
  }

  function MetaPayload(meta: Option<Meta>): Json {
    match meta
    case None => Obj([])
    case Some(m) =>
      Obj([Member("block_number", m.blockNumber), Member("block_hash", m.blockHash),
           Member("deployment", m.deployment), Member("has_indexing_errors", m.hasIndexingErrors)])
  }

  function GraphPayload(query: string, variables: Json, body: Json, meta: Option<Meta>, retrievedAt: string,
                        warnings: seq<string>, hasErrors: bool): Json {
    Obj([Member("query", Text(query)), Member("variables", variables), Member("response", body),
         Member("meta", MetaPayload(meta)), Member("retrieved_at", Text(retrievedAt)),
         Member("warnings", Arr(seq(|warnings|, i requires 0 <= i < |warnings| => Text(warnings[i])))),
         Member("has_errors", Bool(hasErrors))])
  }

  function QueryGraph(reply: GraphReply, query: string, variables: Json, retrievedAt: string): CallResult<GraphAnswer> {
    match reply
    case GraphTimedOut => Failing(ProviderError("The Graph query timed out.", PROVIDER_TIMEOUT, TIMEOUT, false))
    case GraphHttpError => Failing(ProviderError("The Graph HTTP error.", RPC_UNAVAILABLE, FAILED, false))
    case GraphUnreachable => Failing(ProviderError("The Graph network error.", RPC_UNAVAILABLE, FAILED, false))
    case GraphBody(None) => Raised
    case GraphBody(Some(body)) =>
      if !body.Obj? then Raised
      else
        var errors := Field(body, "errors");
        if Truthy(errors) && !Describable(errors) then Raised
        else
          match ExtractMeta(body)
          case Raised => Raised
          case Failing(e) => Failing(e)
          case Value(meta) =>
            var hasErrors := Truthy(errors);
            var warnings :=
              (if hasErrors then ["Graph error"] else [])
              + (if meta.None? then ["_meta not present in Graph response"]
                 else if IndexingErrorsReported(meta) then ["The Graph reported hasIndexingErrors=true"] else []);
            Value(GraphAnswer(GraphPayload(query, variables, body, meta, retrievedAt, warnings, hasErrors), hasErrors,
                              meta, warnings))
  }

  // ---- what a response reports about its index ----

  /** `_meta` stands at position `k`, inside the first dict that has one. */
  ghost predicate NestedAt(data: seq<Member>, k: nat, meta: Json) {
    && k < |data| && data[k].value.Obj? && Get(data[k].value.members, "_meta") == Some(meta)
    && forall j :: 0 <= j < k && data[j].value.Obj? ==> Get(data[j].value.members, "_meta") == None
  }

  /** The `_meta` of some data: its own, or else the first one a level deeper. */
  ghost predicate MetaOf(data: seq<Member>, meta: Json) {
    if Get(data, "_meta") == None || Get(data, "_meta") == Some(Null) then exists k: nat :: NestedAt(data, k, meta)
    else Get(data, "_meta") == Some(meta)
  }

  lemma {:induction false} NestedFound(data: seq<Member>, k: nat, meta: Json)
    requires NestedAt(data, k, meta)
    ensures NestedMeta(data) == meta
  {
    if k > 0 {
      assert data[0].value.Obj? ==> Get(data[0].value.members, "_meta") == None;
      forall j | 0 <= j < k - 1 && data[1..][j].value.Obj? ensures Get(data[1..][j].value.members, "_meta") == None {
        assert data[1..][j] == data[j + 1];
      }
      NestedFound(data[1..], k - 1, meta);
    }
  }

  lemma MetaFound(data: seq<Member>, meta: Json)
    requires MetaOf(data, meta)
    ensures FindMeta(data) == meta
  {
    hide NestedMeta;
    if k: nat :| NestedAt(data, k, meta) && (Get(data, "_meta") == None || Get(data, "_meta") == Some(Null)) {
      NestedFound(data, k, meta);
    }
  }

  /** The `_meta` is a dict, and so is its block as far as it has one. */
  ghost predicate WellShaped(body: Json, data: seq<Member>, meta: seq<Member>) {
    && body.Obj? && Get(body.members, "data") == Some(Obj(data)) && MetaOf(data, Obj(meta)) && meta != []
    && (Get(meta, "block") == None || exists block :: Get(meta, "block") == Some(Obj(block)))
  }

  /** What is recorded of the index: the block, the deployment, and whether it reports errors. */
  lemma IndexAsReported(body: Json, data: seq<Member>, meta: seq<Member>, query: string, variables: Json,
                        retrievedAt: string)
    requires WellShaped(body, data, meta) && !Truthy(Field(body, "errors"))
    ensures var a := QueryGraph(GraphBody(Some(body)), query, variables, retrievedAt);
      && a.Value? && !a.value.hasErrors && a.value.meta.Some?
      && a.value.meta.value.blockNumber == Field(Field(Obj(meta), "block"), "number")
      && a.value.meta.value.blockHash == Field(Field(Obj(meta), "block"), "hash")
      && a.value.meta.value.deployment == Field(Obj(meta), "deployment")
      && (IndexingErrorsReported(a.value.meta) <==> Truthy(Field(Obj(meta), "hasIndexingErrors")))
  {
    hide MetaOf, FindMeta;
    MetaFound(data, Obj(meta));
    assert data != [] by { MetaNeedsData(data, Obj(meta)); }
  }

  lemma MetaNeedsData(data: seq<Member>, meta: Json)
    requires MetaOf(data, meta)
    ensures data != []
  {
  }

  /** A response without GraphQL errors whose `_meta` says that indexing had errors. */
  ghost predicate ReportsIndexingErrors(reply: GraphReply) {
    && reply.GraphBody? && reply.body.Some? && !Truthy(Field(reply.body.value, "errors"))
    && exists data, meta ::
         WellShaped(reply.body.value, data, meta) && Truthy(Field(Obj(meta), "hasIndexingErrors"))
  }

  lemma ReportedErrorsAreSeen(reply: GraphReply, query: string, variables: Json, retrievedAt: string)
    ensures ReportsIndexingErrors(reply) ==>
      var a := QueryGraph(reply, query, variables, retrievedAt);
      a.Value? && !a.value.hasErrors && IndexingErrorsReported(a.value.meta)
  {
    hide QueryGraph, WellShaped, Truthy, Field;
    if reply.GraphBody? && reply.body.Some? && !Truthy(Field(reply.body.value, "errors")) {
      if data, meta :| WellShaped(reply.body.value, data, meta) && Truthy(Field(Obj(meta), "hasIndexingErrors")) {
        IndexAsReported(reply.body.value, data, meta, query, variables, retrievedAt);
      }
    }
  }

  /** How the provider's replies are told apart, and what an answer is made of. */
  lemma AnswerSays(reply: GraphReply, query: string, variables: Json, retrievedAt: string)
    ensures var a := QueryGraph(reply, query, variables, retrievedAt);
      && (reply.GraphTimedOut? ==> a.Failing? && a.error.status == TIMEOUT)
      && (reply.GraphHttpError? || reply.GraphUnreachable? ==> a.Failing? && a.error.status == FAILED)
      && (reply.GraphBody? ==> !a.Failing?)
      && (a.Value? ==>
            && reply.GraphBody? && reply.body.Some?
            && (a.value.hasErrors <==> Truthy(Field(reply.body.value, "errors")))
            && a.value.payload == GraphPayload(query, variables, reply.body.value, a.value.meta, retrievedAt,
                                               a.value.warnings, a.value.hasErrors))
  {
    hide FindMeta, Field, Truthy, GraphPayload, Describable;
  }

  /**
   Responses that the provider cannot take apart: not JSON, no dict, errors that are no dicts, or data
   that is none.
   */
  lemma MisshapenAnswersRaise(body: Json, query: string, variables: Json, retrievedAt: string)
    ensures QueryGraph(GraphBody(None), query, variables, retrievedAt) == Raised
    ensures var a := QueryGraph(GraphBody(Some(body)), query, variables, retrievedAt);
      && (!body.Obj? ==> a == Raised)
      && (Truthy(Field(body, "errors")) && !Field(body, "errors").Arr? ==> a == Raised)
      && (Field(body, "errors").Arr? && (exists e <- Field(body, "errors").items :: !e.Obj?) ==> a == Raised)
      && (Truthy(Field(body, "data")) && !Field(body, "data").Obj? ==> a == Raised)
  {
    hide FindMeta;
  }

  /** The findings about the index, as they are preserved. */
  lemma MetaPayloadFields(m: Meta)
    ensures var p := MetaPayload(Some(m));
      && Field(p, "block_number") == m.blockNumber && Field(p, "block_hash") == m.blockHash
      && Field(p, "deployment") == m.deployment && Field(p, "has_indexing_errors") == m.hasIndexingErrors
    ensures MetaPayload(None) == Obj([])
  {
    hide Get;
    var ms := MetaPayload(Some(m)).members;
    assert |ms[0].key| == 12 && |ms[1].key| == 10 && |ms[2].key| == 10 && |ms[3].key| == 19;
    assert ms[1].key[0] == 'b' && ms[2].key[0] == 'd';
    CanonicalJson.GetAt(ms, 0);
    CanonicalJson.GetAt(ms, 1);
    CanonicalJson.GetAt(ms, 2);
    CanonicalJson.GetAt(ms, 3);
  }

  /** What is preserved of an answer: the request, the response as it came, and the findings. */
  lemma GraphPayloadFields(query: string, variables: Json, body: Json, meta: Option<Meta>, retrievedAt: string,
                           warnings: seq<string>, hasErrors: bool)
    ensures var p := GraphPayload(query, variables, body, meta, retrievedAt, warnings, hasErrors);
      && Field(p, "query") == Text(query) && Field(p, "variables") == variables && Field(p, "response") == body
      && Field(p, "meta") == MetaPayload(meta) && Field(p, "retrieved_at") == Text(retrievedAt)
      && Field(p, "has_errors") == Bool(hasErrors)
      && Field(p, "warnings").Arr? && |Field(p, "warnings").items| == |warnings|
      && forall i :: 0 <= i < |warnings| ==> Field(p, "warnings").items[i] == Text(warnings[i])
  {
    hide Get, MetaPayload;
    var ms := GraphPayload(query, variables, body, meta, retrievedAt, warnings, hasErrors).members;
    assert |ms[0].key| == 5 && |ms[1].key| == 9 && |ms[2].key| == 8 && |ms[3].key| == 4 && |ms[4].key| == 12;
    assert |ms[5].key| == 8 && |ms[6].key| == 10 && ms[2].key[0] == 'r' && ms[5].key[0] == 'w';
    CanonicalJson.GetAt(ms, 0);
    CanonicalJson.GetAt(ms, 1);
    CanonicalJson.GetAt(ms, 2);
    CanonicalJson.GetAt(ms, 3);
    CanonicalJson.GetAt(ms, 4);
    CanonicalJson.GetAt(ms, 5);
    CanonicalJson.GetAt(ms, 6);
  }

  // ---- the orchestrator ----

  class EvidenceAcquisition {
    const vault: EvidenceVault
    const rpc: JsonRpcProvider?

    constructor (vault: EvidenceVault, rpc: JsonRpcProvider?)
      ensures this.vault == vault && this.rpc == rpc
    {
      this.vault := vault;
      this.rpc := rpc;
    }

    /** The preservation step shared by both levels: a refused write turns the status to PARTIAL. */
    method Preserve(caseId: string, evidenceId: string, payload: Json, status: EvidenceStatus, warnings: seq<string>)
      returns (record: EvidenceRecord)
      requires SidecarsMatch(vault.sha256, vault.disk) && IsHash(vault.sha256)
      modifies vault
      ensures SidecarsMatch(vault.sha256, vault.disk) && Extends(old(vault.disk), vault.disk)
      ensures record.evidenceId == evidenceId
      ensures if JsonPath(CaseDir(caseId) + evidenceId) in old(vault.disk) then
          record.status == PARTIAL && vault.disk == old(vault.disk) && record.rawPath == record.rawSha256 == ""
        else
          && record.status == status && record.warnings == warnings
          && Preserves(record, vault.sha256, vault.disk, payload)
    {
      var base := CaseDir(caseId) + evidenceId;
      ghost var before := vault.disk;
      var r := vault.PreserveRaw(caseId, evidenceId, payload);
      match r {
        case Err(_) =>
          return EvidenceRecord(evidenceId, "", "", PARTIAL, warnings + ["Vault preservation failed"]);
        case Ok((path, digest)) =>
          PathsApart(base, base);
          PreservedExtends(vault.sha256, before, base, Canonicalize(payload));
          return EvidenceRecord(evidenceId, path, digest, status, warnings);
      }
    }

    /**
     L0.  What the provider answered (the ghost result) decides the record: COMPLETE exactly when a
     payload with a receipt came back and its file was fresh; it is then preserved as recorded.
     */
    method AcquireL0(caseId: string, evidenceId: string, txHash: string, times: nat -> real, info: EndpointInfo)
      returns (r: Option<(EvidenceRecord, Option<Json>)>, ghost acquired: CallResult<Json>, ghost methods: seq<string>)
      requires SidecarsMatch(vault.sha256, vault.disk) && IsHash(vault.sha256)
      modifies vault, rpc
      ensures SidecarsMatch(vault.sha256, vault.disk) && Extends(old(vault.disk), vault.disk)
      ensures rpc == null ==> r.Some? && r.value.0.status == FAILURE && r.value.1.None? && vault.disk == old(vault.disk)
      ensures rpc != null ==>
        var answers := Exchanges(rpc.world, rpc.maxRetries, old(rpc.View()), methods, times).0;
        && Made(answers, methods, rpc.expectedChainId)
        && Concludes(answers, rpc.expectedChainId, Lower(txHash), info, acquired)
        && (r.None? <==> acquired.Raised?)
      ensures rpc != null && r.Some? ==>
        var (record, payload) := r.value;
        && (payload.Some? <==> acquired.Value?) && (payload.Some? ==> payload.value == acquired.value)
        && (record.status == COMPLETE <==>
              payload.Some? && Field(payload.value, "receipt") != Null
                && JsonPath(CaseDir(caseId) + evidenceId) !in old(vault.disk))
        && (record.status == NOT_KNOWN <==>
              acquired.Failing? && acquired.error.status == FAILED && Contains(acquired.error.message, "not found"))
        && (record.status == FAILURE <==> acquired.Failing? && record.status != NOT_KNOWN)
        && record.status != WARNING
        && (record.status == COMPLETE ==>
              && record.warnings == []
              && Field(payload.value, "transaction") != Null
              && Field(payload.value, "chain_id") == Int(rpc.expectedChainId)
              && Preserves(record, vault.sha256, vault.disk, payload.value))
    {
      methods, acquired := [], Raised;
      if rpc == null {
        return Some((EvidenceRecord(evidenceId, "", "", FAILURE,
                                    ["RPC provider is not configured (V52_RPC_URL not set)."]), None)),
               acquired, methods;
      }
      hide Exchanges, Field, Payload, Contains, ChainIdOf, BlockMethod, Preserves;
      var answer;
      answer, methods := rpc.Acquire(txHash, times, info);
      acquired := answer;
      match answer {
        case Raised => return None, acquired, methods;
        case Failing(e) =>
          var status := if e.status == FAILED && Contains(e.message, "not found") then NOT_KNOWN else FAILURE;
          return Some((EvidenceRecord(evidenceId, "", "", status, [e.message]), None)), acquired, methods;
        case Value(payload) =>
          ghost var answers := Exchanges(rpc.world, rpc.maxRetries, old(rpc.View()), methods, times).0;
          PayloadIsWhatWasAnswered(answers, methods, rpc.expectedChainId, Lower(txHash), info, acquired);
          PayloadWarnings(answers, methods, rpc.expectedChainId, Lower(txHash), info, payload);
          var status := if rpc.status == DEGRADED || rpc.status == TIMEOUT then PARTIAL else COMPLETE;
          var record := Preserve(caseId, evidenceId, payload, status, WarningsIn(payload));
          return Some((record, Some(payload))), acquired, methods;
      }
    }

    /**
     L1.  COMPLETE exactly when the answer carried no GraphQL errors and reported no indexing
     errors, and its file was fresh; the payload is then preserved under the record's digest.
     A provider that is not configured has no reply.
     */
    method AcquireL1(caseId: string, evidenceId: string, reply: Option<GraphReply>, query: string, variables: Json,
                     retrievedAt: string)
      returns (r: Option<(EvidenceRecord, Option<Json>)>)
      requires SidecarsMatch(vault.sha256, vault.disk) && IsHash(vault.sha256)
      modifies vault
      ensures SidecarsMatch(vault.sha256, vault.disk) && Extends(old(vault.disk), vault.disk)
      ensures reply.None? ==> r.Some? && r.value.0.status == FAILURE && r.value.1.None? && vault.disk == old(vault.disk)
      ensures reply.Some? ==> (r.None? <==> QueryGraph(reply.value, query, variables, retrievedAt).Raised?)
      ensures reply.Some? && r.Some? ==>
        var (record, payload), answer := r.value, QueryGraph(reply.value, query, variables, retrievedAt);
        var isNew := JsonPath(CaseDir(caseId) + evidenceId) !in old(vault.disk);
        && (payload.Some? <==> answer.Value?) && (payload.Some? ==> payload.value == answer.value.payload)
        && (record.status == COMPLETE <==>
              answer.Value? && !answer.value.hasErrors && !IndexingErrorsReported(answer.value.meta) && isNew)
        && (record.status == WARNING <==>
              answer.Value? && !answer.value.hasErrors && IndexingErrorsReported(answer.value.meta) && isNew)
        && (record.status == FAILURE <==> answer.Failing? && answer.error.status == FAILED)
        && record.status != NOT_KNOWN
        && (isNew && ReportsIndexingErrors(reply.value) ==> record.status == WARNING)
        && (reply.value.GraphTimedOut? ==> record.status == PARTIAL && payload.None?)
        && (reply.value.GraphHttpError? || reply.value.GraphUnreachable? ==> record.status == FAILURE && payload.None?)
        && (answer.Value? && Truthy(Field(reply.value.body.value, "errors")) ==> record.status == PARTIAL)
        && (answer.Value? && isNew ==>
              && record.warnings == answer.value.warnings
              && Preserves(record, vault.sha256, vault.disk, answer.value.payload))
    {
      if reply.None? {
        return Some((EvidenceRecord(evidenceId, "", "", FAILURE,
                                    ["The Graph provider is not configured (V52_GRAPH_ENDPOINT not set)."]), None));
      }
      hide QueryGraph, Preserves, ReportsIndexingErrors;
      ReportedErrorsAreSeen(reply.value, query, variables, retrievedAt);
      AnswerSays(reply.value, query, variables, retrievedAt);
      var answer := QueryGraph(reply.value, query, variables, retrievedAt);
      match answer {
        case Raised => return None;
        case Failing(e) =>
          return Some((EvidenceRecord(evidenceId, "", "", if e.status == FAILED then FAILURE else PARTIAL,
                                      [e.message]), None));
        case Value(a) =>
          var status := if a.hasErrors then PARTIAL else if IndexingErrorsReported(a.meta) then WARNING else COMPLETE;
          var record := Preserve(caseId, evidenceId, a.payload, status, a.warnings);
          return Some((record, Some(a.payload)));
      }
    }
  }

  /** The record's file holds the canonical payload and hashes to the record's digest. */
  predicate Preserves(record: EvidenceRecord, h: Hash, disk: Disk, payload: Json) {
    && Verifies(h, disk, record.rawPath, record.rawSha256)
    && disk[record.rawPath] == Canonicalize(payload)
  }

  function Strings(xs: seq<Json>): seq<string> {
    if xs == [] then [] else (if xs[0].Text? then [xs[0].s] else []) + Strings(xs[1..])
  }

  function WarningsIn(payload: Json): seq<string> {
    if Field(payload, "warnings").Arr? then Strings(Field(payload, "warnings").items) else []
  }

  /** Only a payload without a receipt carries a warning. */
  lemma PayloadWarnings(answers: seq<CallResult<Json>>, methods: seq<string>, chainId: int, tx: string,
                        info: EndpointInfo, payload: Json)
    requires Made(answers, methods, chainId) && Concludes(answers, chainId, tx, info, Value(payload))
    ensures WarningsIn(payload) == [] <==> Field(payload, "receipt") != Null
  {
    hide Field, ChainIdOf, BlockMethod, Payload;
    PayloadIsWhatWasAnswered(answers, methods, chainId, tx, info, Value(payload));
    var block := if |answers| > 3 then answers[3].value else Null;
    PayloadFields(info, chainId, tx, answers[1].value, answers[2].value, block);
  }

  /** Writing a fresh JSON file and its sidecar touches nothing that was there. */
  lemma PreservedExtends(h: Hash, disk: Disk, base: Path, content: Bytes)
    requires SidecarsMatch(h, disk) && JsonPath(base) !in disk
    ensures var after := disk[JsonPath(base) := content][SidecarPath(base) := Utf8.Encode(h(content))];
      Extends(disk, after) && SidecarsMatch(h, after)
  {
    var after := disk[JsonPath(base) := content][SidecarPath(base) := Utf8.Encode(h(content))];
    PathsApart(base, base);
    assert SidecarPath(base) !in disk;
    forall b: Path | SidecarPath(b) in after
      ensures JsonPath(b) in after && after[SidecarPath(b)] == Utf8.Encode(h(after[JsonPath(b)]))
    {
      PathsApart(b, base);
      PathsApart(base, b);
    }
  }

  /** What a record says about its file stays true however the vault is used afterwards. */
  lemma RecordsStayTrue(h: Hash, s: VaultRuns.State, run: seq<VaultRuns.Event>, record: EvidenceRecord, payload: Json)
    requires IsHash(h) && VaultRuns.Invariant(h, s) && VaultRuns.Legal(h, s, run)
    requires Preserves(record, h, s.disk, payload)
    ensures Preserves(record, h, VaultRuns.Exec(h, s, run).disk, payload)
  {
    VaultRuns.StoredEvidenceNeverChanges(h, s, run);
  }

  /** A transaction the node does not know gives an L0 record of unknown status. */
  lemma MissingTransactionIsUnknown(answers: seq<CallResult<Json>>, methods: seq<string>, chainId: int, tx: string,
                                    info: EndpointInfo, acquired: CallResult<Json>)
    requires Made(answers, methods, chainId) && Concludes(answers, chainId, tx, info, acquired)
    requires |answers| >= 2 && answers[1] == Value(Null)
    ensures acquired.Failing? && acquired.error.code == NOT_FOUND
    ensures acquired.error.status == FAILED && Contains(acquired.error.message, "not found")
  {
    hide Contains;
    NotFoundSaysSo(tx, info.network);
  }

  /** What a clean answer says about the response itself. */
  lemma CleanAnswer(reply: GraphReply, query: string, variables: Json, retrievedAt: string)
    requires var a := QueryGraph(reply, query, variables, retrievedAt);
      a.Value? && !a.value.hasErrors && !IndexingErrorsReported(a.value.meta)
    ensures reply.GraphBody? && reply.body.Some? && reply.body.value.Obj?
    ensures !Truthy(Field(reply.body.value, "errors"))
    ensures var data := Field(reply.body.value, "data");
      Truthy(data) && data.Obj? && FindMeta(data.members).Obj? ==>
        !Truthy(Field(FindMeta(data.members), "hasIndexingErrors"))
  {
  }

  /** A response without `_meta`, whatever else its data holds, is not downgraded: it only carries a warning text. */
  lemma MissingMetaStaysClean(body: Json, query: string, variables: Json, retrievedAt: string)
    requires body.Obj? && !Truthy(Field(body, "errors"))
    requires var data := Field(body, "data"); !Truthy(data) || (data.Obj? && !Truthy(FindMeta(data.members)))
    ensures var a := QueryGraph(GraphBody(Some(body)), query, variables, retrievedAt);
      && a.Value? && !a.value.hasErrors && !IndexingErrorsReported(a.value.meta)
      && a.value.warnings == ["_meta not present in Graph response"]
  {
    assert ExtractMeta(body) == Value(None);
    assert [] + ["_meta not present in Graph response"] == ["_meta not present in Graph response"];
  }
}
