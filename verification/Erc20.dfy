/** The strict ERC-20 Transfer decoder and the transfer model it fills. */
module Erc20 {
  import opened Basics
  import opened Numerals
  import opened Json
  import opened Amounts
  import CanonicalJson
  import Sorting

  const TRANSFER_TOPIC := "0xddf252ad1be2c89b69c2b068fc378daa" + "952ba7f163c4a11628f55a4df523b3ef"

  type Log = seq<Member>

  datatype TokenMetadata = TokenMetadata(address: string, symbol: Option<string>, decimals: Option<int>)

  /** An entry of `metadata_by_address`. */
  datatype MetadataEntry = MetadataEntry(key: string, metadata: TokenMetadata)

  datatype DecodeError =
    | EmptyEvidenceId | BadTopicCount | NotTransfer | BadData | BadAddress | InvalidMetadata | MetadataMismatch
    | BadTopic | NonZeroPadding | BadTransactionHash | BadQuantity | InvalidModel

  datatype DecodedTransfer = DecodedTransfer(
    tokenAddress: string, fromAddress: string, toAddress: string, amountRaw: string, transactionHash: string,
    blockNumber: int, logIndex: int, evidenceIds: seq<string>, tokenSymbol: Option<string>,
    tokenDecimals: Option<int>, amountFormatted: Option<string>, warnings: seq<string>)

  // ---- app/models/transfer.py: what the models accept, and what they store ----

  predicate DecimalsInRange(d: Option<int>) {
    d.Some? ==> 0 <= d.value <= 255
  }

  function ValidateMetadata(m: TokenMetadata): Option<TokenMetadata> {
    if IsHex(m.address, 40) && DecimalsInRange(m.decimals) then Some(m.(address := Lower(m.address))) else None
  }

  /** `list(dict.fromkeys(values))`. */
  function Dedupe(values: seq<string>): seq<string> {
    if values == [] then []
    else
      var rest := Dedupe(values[..|values| - 1]);
      if values[|values| - 1] in rest then rest else rest + [values[|values| - 1]]
  }

  predicate Acceptable(t: DecodedTransfer) {
    && IsHex(t.tokenAddress, 40) && IsHex(t.fromAddress, 40) && IsHex(t.toAddress, 40)
    && IsHex(t.transactionHash, 64)
    && Canonical(t.amountRaw, 10) && (forall c <- t.amountRaw :: '0' <= c <= '9')
    && t.blockNumber >= 0 && t.logIndex >= 0
    && t.evidenceIds != [] && (forall e <- t.evidenceIds :: !Blank(e))
    && DecimalsInRange(t.tokenDecimals)
  }

  function Validate(t: DecodedTransfer): Option<DecodedTransfer> {
    if Acceptable(t) then
      Some(t.(tokenAddress := Lower(t.tokenAddress), fromAddress := Lower(t.fromAddress),
              toAddress := Lower(t.toAddress), transactionHash := Lower(t.transactionHash),
              evidenceIds := Dedupe(t.evidenceIds)))
    else None
  }

  /** Deduplication keeps exactly the identifiers there were, each once, and is idempotent. */
  lemma {:induction false} DedupeKeepsMembers(values: seq<string>)
    ensures Sorting.Distinct(Dedupe(values))
    ensures forall v :: v in Dedupe(values) <==> v in values
    decreases |values|
  {
    if values != [] {
      var init, last := values[..|values| - 1], values[|values| - 1];
      assert values == init + [last];
      DedupeKeepsMembers(init);
    }
  }

  lemma {:induction false} DedupeDistinct(values: seq<string>)
    requires Sorting.Distinct(values)
    ensures Dedupe(values) == values
    decreases |values|
  {
    if values != [] {
      var init, last := values[..|values| - 1], values[|values| - 1];
      assert values == init + [last];
      DedupeDistinct(init);
    }
  }

  /** What the model stores, it accepts again unchanged. */
  lemma ValidateIdempotent(t: DecodedTransfer)
    requires Validate(t).Some?
    ensures Validate(Validate(t).value) == Validate(t)
  {
    DedupeKeepsMembers(t.evidenceIds);
    DedupeDistinct(Dedupe(t.evidenceIds));
    LowerHex(t.tokenAddress, 40);
    LowerHex(t.fromAddress, 40);
    LowerHex(t.toAddress, 40);
    LowerHex(t.transactionHash, 64);
    assert t.evidenceIds[0] in Dedupe(t.evidenceIds);
  }

  lemma LowerHex(s: string, n: nat)
    requires IsHex(s, n)
    ensures IsHex(Lower(s), n) && Lower(Lower(s)) == Lower(s)
    ensures Lower(s)[2..] == Lower(s[2..])
  {
    LowerIdempotent(s);
    OfTextLower(s[2..], 16);
    assert Lower(s)[2..] == Lower(s[2..]);
  }

  // ---- app/protocols/erc20.py ----

  function Quantity(v: Json): Option<nat> {
    match v
    case Int(n) => if n < 0 then None else Some(n)
    case Text(s) => if StartsWith(s, "0x") then ParseHex(s) else None
    case _ => None
  }

  function HexField(v: Json, n: nat): Option<string> {
    if v.Text? && IsHex(v.s, n) then Some(Lower(v.s)) else None
  }

  /** The amount a data word denotes. */
  function Amount(data: Json): nat
    requires HexField(data, 64).Some?
  {
    OfText(data.s[2..], 16)
  }

  function TopicAddress(v: Json): Result<string, DecodeError> {
    if HexField(v, 64).None? then Err(BadTopic)
    else
      var encoded := v.s[2..];
      if encoded[..24] != Repeat('0', 24) then Err(NonZeroPadding) else Ok(Lower("0x" + encoded[24..]))
  }

  function FindMetadata(entries: seq<MetadataEntry>, token: string): Option<TokenMetadata> {
    if entries == [] then None
    else if Lower(entries[0].key) == token then Some(entries[0].metadata)
    else FindMetadata(entries[1..], token)
  }

  function MetadataFor(token: string, entries: seq<MetadataEntry>): Result<Option<TokenMetadata>, DecodeError> {
    match FindMetadata(entries, token)
    case None => Ok(None)
    case Some(raw) =>
      match ValidateMetadata(raw)
      case None => Err(InvalidMetadata)
      case Some(m) => if m.address != token then Err(MetadataMismatch) else Ok(Some(m))
  }

  function TransferWarning(token: string): string {
    "Token decimals unavailable for " + token + "; amount_raw was preserved and amount_formatted was omitted."
  }

  predicate IsTransferTopic(v: Json) {
    v.Text? && Lower(v.s) == TRANSFER_TOPIC
  }

  /** The fields of one log, before the transfer model sees them. */
  function Fields(log: Log, evidenceId: string, entries: seq<MetadataEntry>): Result<DecodedTransfer, DecodeError> {
    var topics, data := Field(Obj(log), "topics"), Field(Obj(log), "data");
    if Blank(evidenceId) then Err(EmptyEvidenceId)
    else if !topics.Arr? || |topics.items| != 3 then Err(BadTopicCount)
    else if !IsTransferTopic(topics.items[0]) then Err(NotTransfer)
    else if HexField(data, 64).None? then Err(BadData)
    else if HexField(Field(Obj(log), "address"), 40).None? then Err(BadAddress)
    else
      var token := HexField(Field(Obj(log), "address"), 40).value;
      var amount := Amount(data);
      match MetadataFor(token, entries)
      case Err(e) => Err(e)
      case Ok(metadata) =>
        var decimals := if metadata.Some? then metadata.value.decimals else None;
        var formatted := if decimals.Some? then FormatTokenAmount(amount, decimals.value) else Err(BadDecimals);
        var sender, receiver := TopicAddress(topics.items[1]), TopicAddress(topics.items[2]);
        var hash := HexField(Field(Obj(log), "transactionHash"), 64);
        var block, index := Quantity(Field(Obj(log), "blockNumber")), Quantity(Field(Obj(log), "logIndex"));
        if sender.Err? then Err(sender.error)
        else if receiver.Err? then Err(receiver.error)
        else if hash.None? then Err(BadTransactionHash)
        else if block.None? || index.None? then Err(BadQuantity)
        else
          Ok(DecodedTransfer(token, sender.value, receiver.value, Str(amount), hash.value, block.value, index.value,
                             [evidenceId], if metadata.Some? then metadata.value.symbol else None, decimals,
                             if formatted.Ok? then Some(formatted.value) else None,
                             if decimals.Some? then [] else [TransferWarning(token)]))
  }

  function DecodeTransferLog(log: Log, evidenceId: string, entries: seq<MetadataEntry>)
    : Result<DecodedTransfer, DecodeError>
  {
    match Fields(log, evidenceId, entries)
    case Err(e) => Err(e)
    case Ok(t) => match Validate(t) case None => Err(InvalidModel) case Some(u) => Ok(u)
  }

  lemma PaddedTopic(v: Json)
    requires TopicAddress(v).Ok?
    ensures var a := TopicAddress(v).value; IsHex(a, 40) && Lower(a) == a
    ensures Lower(v.s) == "0x" + Repeat('0', 24) + TopicAddress(v).value[2..]
  {
    var encoded := v.s[2..];
    LowerHex(v.s, 64);
    assert IsHex("0x" + encoded[24..], 40) by { assert ("0x" + encoded[24..])[2..] == encoded[24..]; }
    LowerHex("0x" + encoded[24..], 40);
    LowerConcat("0x", encoded[24..]);
    LowerConcat(encoded[..24], encoded[24..]);
    assert encoded == encoded[..24] + encoded[24..];
    assert v.s == "0x" + encoded;
    LowerConcat("0x", encoded);
    assert Lower("0x") == "0x";
    assert Lower(Repeat('0', 24)) == Repeat('0', 24);
  }

  ghost predicate FirstEntry(entries: seq<MetadataEntry>, token: string, i: nat) {
    && i < |entries| && Lower(entries[i].key) == token
    && forall j :: 0 <= j < i ==> Lower(entries[j].key) != token
  }

  /** The first entry whose key is the token, in any letter case, decides; its own address must be the token's too. */
  lemma {:induction false} MetadataLookup(token: string, entries: seq<MetadataEntry>)
    ensures MetadataFor(token, entries) == Ok(None) <==> forall e <- entries :: Lower(e.key) != token
    ensures forall i: nat :: FirstEntry(entries, token, i) ==>
      var raw, r := entries[i].metadata, MetadataFor(token, entries);
      if !IsHex(raw.address, 40) || (raw.decimals.Some? && !(0 <= raw.decimals.value <= 255)) then
        r == Err(InvalidMetadata)
      else if Lower(raw.address) != token then r == Err(MetadataMismatch)
      else r == Ok(Some(TokenMetadata(token, raw.symbol, raw.decimals)))
  {
    if entries != [] && Lower(entries[0].key) != token {
      var rest := entries[1..];
      MetadataLookup(token, rest);
      assert entries == [entries[0]] + rest;
      assert MetadataFor(token, entries) == MetadataFor(token, rest);
      forall i: nat | FirstEntry(entries, token, i) ensures i > 0 && FirstEntry(rest, token, i - 1) {
        forall j | 0 <= j < i - 1 ensures Lower(rest[j].key) != token { assert rest[j] == entries[j + 1]; }
      }
    } else if entries != [] {
      assert entries[0] in entries;
      assert forall i: nat :: FirstEntry(entries, token, i) ==> i == 0;
    }
  }

  ghost predicate QuantityDigits(v: Json, digits: string, n: nat) {
    v == Text("0x" + digits) && digits != [] && AllDigits(digits, 16) && OfText(digits, 16) == n
  }

  /** A quantity is a number, or its digits in base 16 behind a 0x. */
  lemma QuantityReads(v: Json, n: nat)
    ensures Quantity(v) == Some(n) <==> v == Int(n) || exists digits :: QuantityDigits(v, digits, n)
  {
    hide OfText;
    if v.Text? && Quantity(v) == Some(n) {
      var digits := v.s[2..];
      assert v.s == "0x" + digits && v.s[..2] == [v.s[0], v.s[1]];
      assert QuantityDigits(v, digits, n);
    }
    if digits :| QuantityDigits(v, digits, n) {
      assert v.s[2..] == digits && v.s[..2] == "0x";
    }
  }

  /** What the model stores: lower-cased hexadecimal, a canonical amount, evidence ids once each and not blank. */
  lemma StoredIsNormal(t: DecodedTransfer)
    requires Validate(t).Some?
    ensures var u := Validate(t).value;
      && (forall a <- [u.tokenAddress, u.fromAddress, u.toAddress] :: IsHex(a, 40) && Lower(a) == a)
      && IsHex(u.transactionHash, 64) && Lower(u.transactionHash) == u.transactionHash
      && AllDigits(u.amountRaw, 10) && u.amountRaw == Str(OfText(u.amountRaw, 10))
      && u.blockNumber >= 0 && u.logIndex >= 0
      && u.evidenceIds != [] && Sorting.Distinct(u.evidenceIds) && (forall e <- u.evidenceIds :: !Blank(e))
      && (u.tokenDecimals.Some? ==> 0 <= u.tokenDecimals.value <= 255)
    ensures var u := Validate(t).value;
      && u.amountRaw == t.amountRaw && u.blockNumber == t.blockNumber && u.logIndex == t.logIndex
      && u.tokenSymbol == t.tokenSymbol && u.tokenDecimals == t.tokenDecimals
      && u.amountFormatted == t.amountFormatted && u.warnings == t.warnings
  {
    hide IsHex, ToText, OfText, Blank;
    LowerHex(t.tokenAddress, 40);
    LowerHex(t.fromAddress, 40);
    LowerHex(t.toAddress, 40);
    LowerHex(t.transactionHash, 64);
    CanonicalUnique(t.amountRaw, 10);
    DigitsAreLower(t.amountRaw);
    DedupeKeepsMembers(t.evidenceIds);
    assert t.evidenceIds[0] in Dedupe(t.evidenceIds);
  }

  /** The log fields a decoded transfer was read from. */
  ghost predicate ReadFrom(t: DecodedTransfer, log: Log, evidenceId: string) {
    var topics, data := Field(Obj(log), "topics"), Field(Obj(log), "data");
    && topics.Arr? && |topics.items| == 3 && IsTransferTopic(topics.items[0])
    && HexField(data, 64).Some? && t.amountRaw == Str(Amount(data))
    && HexField(Field(Obj(log), "address"), 40) == Some(t.tokenAddress)
    && TopicAddress(topics.items[1]) == Ok(t.fromAddress)
    && TopicAddress(topics.items[2]) == Ok(t.toAddress)
    && HexField(Field(Obj(log), "transactionHash"), 64) == Some(t.transactionHash)
    && t.blockNumber >= 0 && Quantity(Field(Obj(log), "blockNumber")) == Some(t.blockNumber)
    && t.logIndex >= 0 && Quantity(Field(Obj(log), "logIndex")) == Some(t.logIndex)
    && !Blank(evidenceId) && t.evidenceIds == [evidenceId]
  }

  lemma FieldsReadFrom(log: Log, evidenceId: string, entries: seq<MetadataEntry>)
    requires Fields(log, evidenceId, entries).Ok?
    ensures ReadFrom(Fields(log, evidenceId, entries).value, log, evidenceId)
    ensures DecimalsInRange(Fields(log, evidenceId, entries).value.tokenDecimals)
  {
    hide Field, HexField, TopicAddress, Quantity, Blank, FindMetadata, FormatTokenAmount, TransferWarning,
      IsTransferTopic, Amount, ToText, Lower, IsHex;
  }

  lemma HexFieldLower(v: Json, n: nat)
    requires HexField(v, n).Some?
    ensures var s := HexField(v, n).value; IsHex(s, n) && Lower(s) == s
  {
    LowerHex(v.s, n);
  }

  lemma DecimalText(n: nat)
    ensures Canonical(Str(n), 10) && forall c <- Str(n) :: '0' <= c <= '9'
  {
    ToTextCanonical(n, 10);
    forall c | c in Str(n) ensures '0' <= c <= '9' {
      var i :| 0 <= i < |Str(n)| && Str(n)[i] == c;
      assert IsDigit(Str(n)[i], 10);
    }
  }

  lemma ReadFromAcceptable(t: DecodedTransfer, log: Log, evidenceId: string)
    requires ReadFrom(t, log, evidenceId) && DecimalsInRange(t.tokenDecimals)
    ensures Validate(t) == Some(t)
  {
    hide Field, HexField, TopicAddress, Quantity, Blank, IsTransferTopic, ToText, Amount, IsHex, Lower, Canonical;
    var topics := Field(Obj(log), "topics").items;
    HexFieldLower(Field(Obj(log), "address"), 40);
    HexFieldLower(Field(Obj(log), "transactionHash"), 64);
    PaddedTopic(topics[1]);
    PaddedTopic(topics[2]);
    DecimalText(Amount(Field(Obj(log), "data")));
    DedupeDistinct(t.evidenceIds);
  }

  /** The transfer model never rejects or alters what the decoder hands it. */
  lemma ModelAcceptsFields(log: Log, evidenceId: string, entries: seq<MetadataEntry>)
    requires Fields(log, evidenceId, entries).Ok?
    ensures DecodeTransferLog(log, evidenceId, entries) == Fields(log, evidenceId, entries)
  {
    hide Fields, Validate, ReadFrom;
    FieldsReadFrom(log, evidenceId, entries);
    ReadFromAcceptable(Fields(log, evidenceId, entries).value, log, evidenceId);
  }

  // ---- amounts fit their text ----

  lemma SmallPowers()
    ensures Pow(16, 2) == 256 && Pow(10, 2) == 100
  {
    assert Pow(16, 1) == 16 && Pow(10, 1) == 10;
  }

  lemma WordRange()
    ensures Pow(16, 64) == 115792089237316195423570985008687907853269984665640564039457584007913129639936
  {
    hide Pow;
    SmallPowers();
    PowAdd(16, 2, 2);
    assert Pow(16, 4) == 65536;
    PowAdd(16, 4, 4);
    assert Pow(16, 8) == 4294967296;
    PowAdd(16, 8, 8);
    assert Pow(16, 16) == 18446744073709551616;
    PowAdd(16, 16, 16);
    assert Pow(16, 32) == 340282366920938463463374607431768211456;
    PowAdd(16, 32, 32);
    assert Pow(16, 64) == 115792089237316195423570985008687907853269984665640564039457584007913129639936;
  }

  lemma WordBound()
    ensures Pow(16, 64) < Pow(10, 78)
  {
    hide Pow;
    WordRange();
    SmallPowers();
    PowAdd(10, 2, 2);
    assert Pow(10, 4) == 10000;
    PowAdd(10, 4, 4);
    assert Pow(10, 8) == 100000000;
    PowAdd(10, 8, 8);
    assert Pow(10, 16) == 10000000000000000;
    PowAdd(10, 16, 16);
    assert Pow(10, 32) == 100000000000000000000000000000000;
    PowAdd(10, 32, 32);
    assert Pow(10, 64) == 10000000000000000000000000000000000000000000000000000000000000000;
    PowAdd(10, 64, 8);
    assert Pow(10, 72) == 1000000000000000000000000000000000000000000000000000000000000000000000000;
    PowAdd(10, 72, 4);
    assert Pow(10, 76) == 10000000000000000000000000000000000000000000000000000000000000000000000000000;
    PowAdd(10, 76, 2);
    assert Pow(10, 78) == 1000000000000000000000000000000000000000000000000000000000000000000000000000000;
  }

  /** amount_raw is the canonical numeral of the data word, and at most 78 digits long. */
  lemma AmountRawDenotesData(log: Log, evidenceId: string, entries: seq<MetadataEntry>)
    requires DecodeTransferLog(log, evidenceId, entries).Ok?
    ensures var t := DecodeTransferLog(log, evidenceId, entries).value; var data := Field(Obj(log), "data");
      && HexField(data, 64).Some?
      && Canonical(t.amountRaw, 10) && |t.amountRaw| <= 78
      && OfText(t.amountRaw, 10) == Amount(data) < Pow(16, 64)
  {
    hide Fields, Field, HexField, TopicAddress, Quantity, Blank, IsTransferTopic, Canonical, Pow;
    ModelAcceptsFields(log, evidenceId, entries);
    FieldsReadFrom(log, evidenceId, entries);
    var data := Field(Obj(log), "data");
    DataBound(data);
    WordBound();
    DigitCount(Amount(data), 10, 78);
    ReadBack(Amount(data), 10);
    DecimalText(Amount(data));
  }

  lemma DataBound(data: Json)
    requires HexField(data, 64).Some?
    ensures Amount(data) < Pow(16, 64)
  {
    OfTextBound(data.s[2..], 16);
  }

  /** The formatted amount, when there is one, is worth exactly the raw amount at the token's decimals. */
  lemma FormattedAmountIsExact(log: Log, evidenceId: string, entries: seq<MetadataEntry>)
    requires DecodeTransferLog(log, evidenceId, entries).Ok?
    ensures var t := DecodeTransferLog(log, evidenceId, entries).value;
      && AllDigits(t.amountRaw, 10)
      && (t.amountFormatted.Some? <==> t.tokenDecimals.Some?)
      && (t.tokenDecimals.Some? ==>
            && 0 <= t.tokenDecimals.value <= 255
            && CanonicalDecimal(t.amountFormatted.value)
            && Denotes(t.amountFormatted.value, OfText(t.amountRaw, 10), t.tokenDecimals.value))
  {
    hide Field, HexField, TopicAddress, Quantity, Blank, IsTransferTopic, Canonical, Amount, Formatted,
      CanonicalDecimal, Denotes, Validate, ToText, OfText, FindMetadata, TransferWarning;
    ModelAcceptsFields(log, evidenceId, entries);
    FieldsReadFrom(log, evidenceId, entries);
    AmountRawDenotesData(log, evidenceId, entries);
    var t := DecodeTransferLog(log, evidenceId, entries).value;
    CanonicalDigits(t.amountRaw);
    if t.tokenDecimals.Some? {
      FormattedIsExact(OfText(t.amountRaw, 10), t.tokenDecimals.value);
    }
  }

  // ---- encoding, as the Transfer event of EIP-20 prescribes ----

  /** A transfer to encode; addresses and hash are hex digits of either letter case. */
  datatype Transfer = Transfer(
    token: string, sender: string, receiver: string, amount: nat, hash: string, block: nat, index: nat)

  predicate Encodable(t: Transfer) {
    && |t.token| == |t.sender| == |t.receiver| == 40 && |t.hash| == 64
    && AllDigits(t.token, 16) && AllDigits(t.sender, 16) && AllDigits(t.receiver, 16) && AllDigits(t.hash, 16)
    && t.amount < Pow(16, 64)
  }

  function Word(address: string): Json {
    Text("0x" + Repeat('0', 24) + address)
  }

  function DataWord(amount: nat): Json {
    Text("0x" + RJust(ToText(amount, 16), 64, '0'))
  }

  function QuantityText(n: nat): Json {
    Text("0x" + ToText(n, 16))
  }

  function EncodeLog(t: Transfer): Log {
    [Member("address", Text("0x" + t.token)),
     Member("topics", Arr([Text(TRANSFER_TOPIC), Word(t.sender), Word(t.receiver)])),
     Member("data", DataWord(t.amount)),
     Member("transactionHash", Text("0x" + t.hash)),
     Member("blockNumber", QuantityText(t.block)),
     Member("logIndex", QuantityText(t.index))]
  }

  lemma ReadHex(s: string, n: nat)
    requires |s| == n && AllDigits(s, 16)
    ensures HexField(Text("0x" + s), n) == Some(Lower("0x" + s))
  {
    assert ("0x" + s)[2..] == s;
  }

  lemma ReadWord(address: string)
    requires |address| == 40 && AllDigits(address, 16)
    ensures TopicAddress(Word(address)) == Ok(Lower("0x" + address))
  {
    var s := Repeat('0', 24) + address;
    assert "0x" + Repeat('0', 24) + address == "0x" + s;
    LeadingZeros(24, address, 16);
    ReadHex(s, 64);
    assert ("0x" + s)[2..] == s && s[..24] == Repeat('0', 24) && s[24..] == address;
  }

  lemma ReadData(amount: nat)
    requires amount < Pow(16, 64)
    ensures HexField(DataWord(amount), 64).Some? && Amount(DataWord(amount)) == amount
  {
    hide Pow, ToText, OfText;
    var digits := ToText(amount, 16);
    DigitCount(amount, 16, 64);
    LeadingZeros(64 - |digits|, digits, 16);
    ReadBack(amount, 16);
    var s := Repeat('0', 64 - |digits|) + digits;
    assert RJust(digits, 64, '0') == s;
    ReadHex(s, 64);
    assert ("0x" + s)[2..] == s;
  }

  lemma ReadQuantity(n: nat)
    ensures Quantity(QuantityText(n)) == Some(n)
  {
    ReadBack(n, 16);
    assert ("0x" + ToText(n, 16))[2..] == ToText(n, 16);
    assert ("0x" + ToText(n, 16))[..2] == "0x";
  }

  lemma TopicIsLower()
    ensures Lower(TRANSFER_TOPIC) == TRANSFER_TOPIC
  {
    var left, right := "0xddf252ad1be2c89b69c2b068fc378daa", "952ba7f163c4a11628f55a4df523b3ef";
    assert forall i :: 0 <= i < 34 ==> LowerChar(left[i]) == left[i];
    assert forall i :: 0 <= i < 32 ==> LowerChar(right[i]) == right[i];
    LowerConcat(left, right);
  }

  lemma EncodedFields(t: Transfer)
    ensures var log := Obj(EncodeLog(t));
      && Field(log, "address") == Text("0x" + t.token)
      && Field(log, "topics") == Arr([Text(TRANSFER_TOPIC), Word(t.sender), Word(t.receiver)])
      && Field(log, "data") == DataWord(t.amount)
      && Field(log, "transactionHash") == Text("0x" + t.hash)
      && Field(log, "blockNumber") == QuantityText(t.block)
      && Field(log, "logIndex") == QuantityText(t.index)
  {
    hide Get, Word, DataWord, QuantityText;
    var ms := EncodeLog(t);
    assert |ms[0].key| == 7 && |ms[1].key| == 6 && |ms[2].key| == 4 && |ms[3].key| == 15 && |ms[4].key| == 11
      && |ms[5].key| == 8;
    CanonicalJson.GetAt(ms, 0);
    CanonicalJson.GetAt(ms, 1);
    CanonicalJson.GetAt(ms, 2);
    CanonicalJson.GetAt(ms, 3);
    CanonicalJson.GetAt(ms, 4);
    CanonicalJson.GetAt(ms, 5);
  }

  /** The decoded form of a transfer to encode, given what is known about its token. */
  function DecodedForm(t: Transfer, evidenceId: string, metadata: Option<TokenMetadata>): DecodedTransfer
    requires metadata.Some? ==> DecimalsInRange(metadata.value.decimals)
  {
    var token := Lower("0x" + t.token);
    var decimals := if metadata.Some? then metadata.value.decimals else None;
    DecodedTransfer(token, Lower("0x" + t.sender), Lower("0x" + t.receiver), Str(t.amount), Lower("0x" + t.hash),
                    t.block, t.index, [evidenceId], if metadata.Some? then metadata.value.symbol else None, decimals,
                    if decimals.Some? then Some(Formatted(t.amount, decimals.value)) else None,
                    if decimals.Some? then [] else [TransferWarning(token)])
  }

  lemma MetadataInRange(token: string, entries: seq<MetadataEntry>)
    ensures var m := MetadataFor(token, entries); m.Ok? && m.value.Some? ==> DecimalsInRange(m.value.value.decimals)
  {
    hide FindMetadata;
  }

  /** Encoding a transfer and decoding the log gives back its fields, lower-cased, or reports bad token metadata. */
  lemma DecodeEncode(t: Transfer, evidenceId: string, entries: seq<MetadataEntry>)
    requires Encodable(t) && !Blank(evidenceId)
    ensures var r := DecodeTransferLog(EncodeLog(t), evidenceId, entries);
      match MetadataFor(Lower("0x" + t.token), entries)
      case Err(e) => r == Err(e)
      case Ok(m) => (m.Some? ==> DecimalsInRange(m.value.decimals)) && r == Ok(DecodedForm(t, evidenceId, m))
  {
    hide Field, HexField, TopicAddress, Quantity, Word, DataWord, QuantityText, EncodeLog, Blank, ToText, Pow,
      TransferWarning, Amount, AllDigits, MetadataFor, Formatted;
    EncodedFields(t);
    ReadHex(t.token, 40);
    ReadHex(t.hash, 64);
    ReadWord(t.sender);
    ReadWord(t.receiver);
    ReadData(t.amount);
    ReadQuantity(t.block);
    ReadQuantity(t.index);
    TopicIsLower();
    MetadataInRange(Lower("0x" + t.token), entries);
    if MetadataFor(Lower("0x" + t.token), entries).Ok? {
      ModelAcceptsFields(EncodeLog(t), evidenceId, entries);
    }
  }

  /** `v` as text, lower-cased. */
  function LowerText(v: Json): Json {
    if v.Text? then Text(Lower(v.s)) else v
  }

  function Reencode(t: DecodedTransfer): Transfer
    requires |t.tokenAddress| >= 2 && |t.fromAddress| >= 2 && |t.toAddress| >= 2 && |t.transactionHash| >= 2
    requires AllDigits(t.amountRaw, 10) && t.blockNumber >= 0 && t.logIndex >= 0
  {
    Transfer(t.tokenAddress[2..], t.fromAddress[2..], t.toAddress[2..], OfText(t.amountRaw, 10),
             t.transactionHash[2..], t.blockNumber, t.logIndex)
  }

  /** The decoder accepts nothing but encodings: a decoded log is one, up to letter case. */
  lemma DecodedLogIsEncoding(log: Log, evidenceId: string, entries: seq<MetadataEntry>)
    requires DecodeTransferLog(log, evidenceId, entries).Ok?
    ensures var t := DecodeTransferLog(log, evidenceId, entries).value;
      && |t.tokenAddress| == |t.fromAddress| == |t.toAddress| == 42 && |t.transactionHash| == 66
      && AllDigits(t.amountRaw, 10) && t.blockNumber >= 0 && t.logIndex >= 0
      && var e := Reencode(t);
      && Encodable(e)
      && LowerText(Field(Obj(log), "address")) == Text("0x" + e.token)
      && Field(Obj(log), "topics").Arr? && |Field(Obj(log), "topics").items| == 3
      && LowerText(Field(Obj(log), "topics").items[0]) == Text(TRANSFER_TOPIC)
      && LowerText(Field(Obj(log), "topics").items[1]) == Word(e.sender)
      && LowerText(Field(Obj(log), "topics").items[2]) == Word(e.receiver)
      && LowerText(Field(Obj(log), "data")) == DataWord(e.amount)
      && LowerText(Field(Obj(log), "transactionHash")) == Text("0x" + e.hash)
      && Quantity(Field(Obj(log), "blockNumber")) == Some(e.block)
      && Quantity(Field(Obj(log), "logIndex")) == Some(e.index)
  {
    hide Fields, Field, HexField, TopicAddress, Quantity, Blank, Lower, IsHex, AllDigits, Repeat, Canonical, Amount,
      DataWord, ToText, OfText, Pow;
    ModelAcceptsFields(log, evidenceId, entries);
    FieldsReadFrom(log, evidenceId, entries);
    var t := DecodeTransferLog(log, evidenceId, entries).value;
    var topics := Field(Obj(log), "topics").items;
    HexFieldText(Field(Obj(log), "address"), 40);
    HexFieldText(Field(Obj(log), "transactionHash"), 64);
    TopicText(topics[1]);
    TopicText(topics[2]);
    DataText(Field(Obj(log), "data"));
    DataBound(Field(Obj(log), "data"));
    AmountRawDenotesData(log, evidenceId, entries);
    CanonicalDigits(t.amountRaw);
  }

  lemma CanonicalDigits(s: string)
    requires Canonical(s, 10)
    ensures AllDigits(s, 10)
  {
  }

  lemma HexFieldText(v: Json, n: nat)
    requires HexField(v, n).Some?
    ensures var s := HexField(v, n).value;
      |s| == n + 2 && AllDigits(s[2..], 16) && LowerText(v) == Text(s) && s == "0x" + s[2..]
  {
    LowerHex(v.s, n);
  }

  lemma TopicText(v: Json)
    requires TopicAddress(v).Ok?
    ensures var a := TopicAddress(v).value;
      |a| == 42 && AllDigits(a[2..], 16) && LowerText(v) == Word(a[2..])
  {
    PaddedTopic(v);
  }

  lemma DataText(v: Json)
    requires HexField(v, 64).Some?
    ensures LowerText(v) == DataWord(Amount(v))
  {
    hide ToText, OfText;
    FixedWidth(v.s[2..], 16);
    LowerHex(v.s, 64);
    assert v.s == "0x" + v.s[2..];
    LowerConcat("0x", v.s[2..]);
  }

  // ---- decoding all logs of a receipt ----

  predicate IsTransferLog(log: Log) {
    var topics := Field(Obj(log), "topics");
    topics.Arr? && topics.items != [] && IsTransferTopic(topics.items[0])
  }

  /** A Transfer log is one with an array of topics of which the first is the event's, in any letter case. */
  lemma TransferLogIff(log: Log)
    ensures IsTransferLog(log) <==> exists topics, first ::
      Get(log, "topics") == Some(Arr([Text(first)] + topics)) && Lower(first) == TRANSFER_TOPIC
  {
    if IsTransferLog(log) {
      var ts := Field(Obj(log), "topics").items;
      assert ts == [Text(ts[0].s)] + ts[1..];
    }
  }

  /**
   An evidence id of white space alone is refused, whatever the log; one with a visible character is not
   for that reason.
   */
  lemma BlankEvidence(log: Log, evidenceId: string, entries: seq<MetadataEntry>)
    ensures (forall c <- evidenceId :: c in " \t\n\r") ==>
      DecodeTransferLog(log, evidenceId, entries) == Err(EmptyEvidenceId)
    ensures (exists c <- evidenceId :: ' ' < c) ==> DecodeTransferLog(log, evidenceId, entries) != Err(EmptyEvidenceId)
  {
    hide TopicAddress, Quantity, MetadataFor, FormatTokenAmount, HexField, IsTransferTopic, Validate;
    if c :| c in evidenceId && ' ' < c {
      var i :| 0 <= i < |evidenceId| && evidenceId[i] == c;
      assert !Blank(evidenceId);
      MetadataErrors(entries);
      TopicErrors();
    }
    assert forall i :: 0 <= i < |evidenceId| ==> evidenceId[i] in evidenceId;
  }

  lemma MetadataErrors(entries: seq<MetadataEntry>)
    ensures forall token :: MetadataFor(token, entries) != Err(EmptyEvidenceId)
  {
    hide FindMetadata;
  }

  lemma TopicErrors()
    ensures forall v :: TopicAddress(v) != Err(EmptyEvidenceId)
  {
  }

  /**
   A Transfer log with another number of topics than three, or without a word of data, is malformed and
   not skipped.
   */
  lemma IncompleteIsMalformed(log: Log, evidenceId: string, entries: seq<MetadataEntry>)
    requires IsTransferLog(log)
    requires |Field(Obj(log), "topics").items| != 3 || !(Field(Obj(log), "data").Text?
                                                         && IsHex(Field(Obj(log), "data").s, 64))
    ensures Malformed(log, evidenceId, entries)
  {
    hide TopicAddress, Quantity, FindMetadata, FormatTokenAmount;
  }

  predicate ByLogIndex(a: DecodedTransfer, b: DecodedTransfer) {
    a.logIndex <= b.logIndex
  }

  predicate Malformed(log: Log, evidenceId: string, entries: seq<MetadataEntry>) {
    IsTransferLog(log) && DecodeTransferLog(log, evidenceId, entries).Err?
  }

  ghost predicate FirstMalformed(logs: seq<Log>, i: nat, evidenceId: string, entries: seq<MetadataEntry>) {
    && i < |logs| && Malformed(logs[i], evidenceId, entries)
    && forall j :: 0 <= j < i ==> !Malformed(logs[j], evidenceId, entries)
  }

  /** The decoded Transfer logs, in the order of the input. */
  function Decoded(logs: seq<Log>, evidenceId: string, entries: seq<MetadataEntry>): seq<DecodedTransfer>
    requires forall log <- logs :: !Malformed(log, evidenceId, entries)
  {
    if logs == [] then []
    else
      var init, last := logs[..|logs| - 1], logs[|logs| - 1];
      assert !Malformed(last, evidenceId, entries);
      Decoded(init, evidenceId, entries)
      + (if IsTransferLog(last) then [DecodeTransferLog(last, evidenceId, entries).value] else [])
  }

  predicate DecodesAt(logs: seq<Log>, i: nat, evidenceId: string, entries: seq<MetadataEntry>) {
    i < |logs| && IsTransferLog(logs[i]) && DecodeTransferLog(logs[i], evidenceId, entries).Ok?
  }

  /**
   `r` holds the decoded Transfer logs, all and nothing else, each once: its k-th element is that at
   the k-th position, ordered by log index and among equal ones by position.
   */
  ghost predicate Arranges(positions: seq<nat>, logs: seq<Log>, evidenceId: string, entries: seq<MetadataEntry>,
                           r: seq<DecodedTransfer>)
  {
    && |positions| == |r|
    && (forall k :: 0 <= k < |r| ==>
          positions[k] < |logs| && IsTransferLog(logs[positions[k]])
          && DecodeTransferLog(logs[positions[k]], evidenceId, entries) == Ok(r[k]))
    && (forall i: nat :: i < |logs| && IsTransferLog(logs[i]) ==> i in positions)
    && (forall k, l :: 0 <= k < l < |r| ==>
          r[k].logIndex < r[l].logIndex || (r[k].logIndex == r[l].logIndex && positions[k] < positions[l]))
  }

  /** The positions of the Transfer logs, from first to last. */
  function Positions(logs: seq<Log>): (ps: seq<nat>)
    ensures Sorting.Ascending(ps) && forall i: nat :: i in ps <==> i < |logs| && IsTransferLog(logs[i])
  {
    if logs == [] then []
    else
      var n := |logs| - 1;
      var before := Positions(logs[..n]);
      assert logs == logs[..n] + [logs[n]];
      assert forall k :: 0 <= k < |before| ==> before[k] in before;
      before + (if IsTransferLog(logs[n]) then [n] else [])
  }

  function DecodedAt(logs: seq<Log>, evidenceId: string, entries: seq<MetadataEntry>, otherwise: DecodedTransfer)
    : nat -> DecodedTransfer
  {
    (i: nat) =>
      if DecodesAt(logs, i, evidenceId, entries) then DecodeTransferLog(logs[i], evidenceId, entries).value
      else otherwise
  }

  lemma {:induction false} DecodedStanding(logs: seq<Log>, evidenceId: string, entries: seq<MetadataEntry>,
                                           all: seq<Log>, otherwise: DecodedTransfer)
    requires logs <= all && forall log <- logs :: !Malformed(log, evidenceId, entries)
    ensures Sorting.Standing(Decoded(logs, evidenceId, entries), Positions(logs),
                             DecodedAt(all, evidenceId, entries, otherwise))
    decreases |logs|
  {
    hide DecodeTransferLog, IsTransferLog;
    if logs != [] {
      var n := |logs| - 1;
      assert logs == logs[..n] + [logs[n]];
      assert !Malformed(logs[n], evidenceId, entries) && all[n] == logs[n];
      DecodedStanding(logs[..n], evidenceId, entries, all, otherwise);
    }
  }

  lemma SortedIsArranged(logs: seq<Log>, evidenceId: string, entries: seq<MetadataEntry>)
    requires forall log <- logs :: !Malformed(log, evidenceId, entries)
    ensures exists positions ::
      Arranges(positions, logs, evidenceId, entries, Sorting.Sort(Decoded(logs, evidenceId, entries), ByLogIndex))
  {
    hide DecodeTransferLog, IsTransferLog, Decoded, Positions;
    var xs, ps := Decoded(logs, evidenceId, entries), Positions(logs);
    var none := DecodedTransfer("", "", "", "", "", 0, 0, [], None, None, None, []);
    var at := DecodedAt(logs, evidenceId, entries, none);
    var key := (i: nat) => at(i).logIndex;
    DecodedStanding(logs, evidenceId, entries, logs, none);
    Sorting.SortStanding(xs, ps, at, ByLogIndex, key);
    Sorting.SortLexicographic(ps, key);
    var r, qs := Sorting.Sort(xs, ByLogIndex), Sorting.Sort(ps, Sorting.ByKey(key));
    forall k | 0 <= k < |r|
      ensures qs[k] < |logs| && IsTransferLog(logs[qs[k]])
      ensures DecodeTransferLog(logs[qs[k]], evidenceId, entries) == Ok(r[k])
    {
      assert qs[k] in ps && logs[qs[k]] in logs;
      assert !Malformed(logs[qs[k]], evidenceId, entries);
    }
    assert Arranges(qs, logs, evidenceId, entries, r);
  }

  /** Fails exactly when some Transfer log is malformed; otherwise sorts what was decoded. */
  method DecodeTransferLogs(logs: seq<Log>, evidenceId: string, entries: seq<MetadataEntry>)
    returns (r: Result<seq<DecodedTransfer>, DecodeError>)
    ensures r.Err? <==> exists log <- logs :: Malformed(log, evidenceId, entries)
    ensures r.Err? ==> exists i: nat ::
      && FirstMalformed(logs, i, evidenceId, entries)
      && r.error == DecodeTransferLog(logs[i], evidenceId, entries).error
    ensures r.Ok? ==> r.value == Sorting.Sort(Decoded(logs, evidenceId, entries), ByLogIndex)
    ensures r.Ok? ==> exists positions :: Arranges(positions, logs, evidenceId, entries, r.value)
  {
    hide DecodeTransferLog, IsTransferTopic, Field;
    var transfers: seq<DecodedTransfer> := [];
    for i := 0 to |logs|
      invariant forall log <- logs[..i] :: !Malformed(log, evidenceId, entries)
      invariant transfers == Decoded(logs[..i], evidenceId, entries)
    {
      var log := logs[i];
      assert logs[..i + 1] == logs[..i] + [log] && logs[..i + 1][..i] == logs[..i];
      if IsTransferLog(log) {
        var decoded := DecodeTransferLog(log, evidenceId, entries);
        if decoded.Err? {
          assert log in logs && Malformed(log, evidenceId, entries);
          forall j | 0 <= j < i ensures !Malformed(logs[j], evidenceId, entries) { assert logs[j] in logs[..i]; }
          assert FirstMalformed(logs, i, evidenceId, entries);
          return Err(decoded.error);
        }
        transfers := transfers + [decoded.value];
      }
    }
    assert logs[..|logs|] == logs;
    SortedIsArranged(logs, evidenceId, entries);
    return Ok(Sorting.Sort(transfers, ByLogIndex));
  }

  /** The positions at which a log decodes to `t`. */
  ghost function DecodingTo(logs: seq<Log>, evidenceId: string, entries: seq<MetadataEntry>, t: DecodedTransfer)
    : set<nat>
  {
    set i: nat | i < |logs| && IsTransferLog(logs[i]) && DecodeTransferLog(logs[i], evidenceId, entries) == Ok(t)
  }

  /** So each transfer occurs in the result as often as there are Transfer logs that decode to it. */
  lemma ArrangedCounts(positions: seq<nat>, logs: seq<Log>, evidenceId: string, entries: seq<MetadataEntry>,
                       r: seq<DecodedTransfer>, t: DecodedTransfer)
    requires Arranges(positions, logs, evidenceId, entries, r)
    ensures multiset(r)[t] == |DecodingTo(logs, evidenceId, entries, t)|
  {
    hide DecodeTransferLog, IsTransferLog;
    assert forall k, l :: 0 <= k < l < |r| ==> positions[k] != positions[l];
    MarkedCount(positions, r, t);
    MarkedMembers(positions, r, t);
    var marked, decoding := Marked(positions, r, t), DecodingTo(logs, evidenceId, entries, t);
    forall i: nat ensures i in decoding <==> i in marked {
      if i in decoding {
        var k :| 0 <= k < |positions| && positions[k] == i;
        assert r[k] == t;
      }
    }
    assert marked == decoding;
  }

  /** The positions at which `t` stands. */
  ghost function Marked(positions: seq<nat>, r: seq<DecodedTransfer>, t: DecodedTransfer): set<nat>
    requires |positions| == |r|
  {
    if r == [] then {}
    else
      var n := |r| - 1;
      Marked(positions[..n], r[..n], t) + (if r[n] == t then {positions[n]} else {})
  }

  lemma {:induction false} MarkedMembers(positions: seq<nat>, r: seq<DecodedTransfer>, t: DecodedTransfer)
    requires |positions| == |r|
    ensures forall i: nat :: i in Marked(positions, r, t) <==>
      exists k :: 0 <= k < |r| && r[k] == t && positions[k] == i
  {
    if r != [] {
      var n := |r| - 1;
      MarkedMembers(positions[..n], r[..n], t);
      forall i: nat
        ensures i in Marked(positions, r, t) <==> exists k :: 0 <= k < |r| && r[k] == t && positions[k] == i
      {
        if k :| 0 <= k < n && r[..n][k] == t && positions[..n][k] == i {
          assert r[k] == t && positions[k] == i;
        }
        if k :| 0 <= k < |r| && r[k] == t && positions[k] == i {
          assert k < n ==> r[..n][k] == t && positions[..n][k] == i;
        }
      }
    }
  }

  lemma {:induction false} MarkedCount(positions: seq<nat>, r: seq<DecodedTransfer>, t: DecodedTransfer)
    requires |positions| == |r| && forall k, l :: 0 <= k < l < |r| ==> positions[k] != positions[l]
    ensures multiset(r)[t] == |Marked(positions, r, t)|
  {
    if r != [] {
      var n := |r| - 1;
      MarkedCount(positions[..n], r[..n], t);
      MarkedMembers(positions[..n], r[..n], t);
      assert r == r[..n] + [r[n]];
      assert positions[n] !in Marked(positions[..n], r[..n], t);
    }
  }

  lemma LogIndexOrder()
    ensures Sorting.TotalPreorder(ByLogIndex)
  {
  }

  /** The result is a log-index-sorted permutation that keeps equal indices in input order. */
  lemma ResultIsStable(logs: seq<Log>, evidenceId: string, entries: seq<MetadataEntry>)
    requires forall log <- logs :: !Malformed(log, evidenceId, entries)
    ensures var decoded := Decoded(logs, evidenceId, entries);
      var r := Sorting.Sort(decoded, ByLogIndex);
      && (forall i, j :: 0 <= i < j < |r| ==> r[i].logIndex <= r[j].logIndex)
      && multiset(r) == multiset(decoded)
      && (forall t :: Sorting.ClassOf(r, t, ByLogIndex) == Sorting.ClassOf(decoded, t, ByLogIndex))
  {
    hide Decoded;
    LogIndexOrder();
    Sorting.SortIsStable(Decoded(logs, evidenceId, entries), ByLogIndex);
  }

  lemma {:induction false} DecodedConcat(a: seq<Log>, b: seq<Log>, evidenceId: string, entries: seq<MetadataEntry>)
    requires forall log <- a + b :: !Malformed(log, evidenceId, entries)
    ensures (forall log <- a :: !Malformed(log, evidenceId, entries))
      && (forall log <- b :: !Malformed(log, evidenceId, entries))
    ensures Decoded(a + b, evidenceId, entries) == Decoded(a, evidenceId, entries) + Decoded(b, evidenceId, entries)
    decreases |b|
  {
    hide Malformed, IsTransferLog, DecodeTransferLog;
    assert forall log :: log in a || log in b ==> log in a + b;
    if b == [] {
      assert a + b == a;
    } else {
      var init := b[..|b| - 1];
      assert (a + b)[..|a + b| - 1] == a + init;
      assert forall log <- a + init :: log in a + b;
      DecodedConcat(a, init, evidenceId, entries);
    }
  }

  lemma DecodedMiddle(before: seq<Log>, x: Log, after: seq<Log>, evidenceId: string, entries: seq<MetadataEntry>)
    requires forall log <- before + ([x] + after) :: !Malformed(log, evidenceId, entries)
    ensures (forall log <- [x] :: !Malformed(log, evidenceId, entries))
    ensures (forall log <- before + after :: !Malformed(log, evidenceId, entries))
    ensures multiset(Decoded(before + ([x] + after), evidenceId, entries))
         == multiset(Decoded([x], evidenceId, entries)) + multiset(Decoded(before + after, evidenceId, entries))
  {
    hide Malformed, Decoded;
    assert forall log :: log == x || log in before || log in after ==> log in before + ([x] + after);
    DecodedConcat(before, [x] + after, evidenceId, entries);
    DecodedConcat([x], after, evidenceId, entries);
    DecodedConcat(before, after, evidenceId, entries);
  }

  /** Permuting the input permutes what is decoded. */
  lemma {:induction false} DecodedPermuted(a: seq<Log>, b: seq<Log>, evidenceId: string, entries: seq<MetadataEntry>)
    requires multiset(a) == multiset(b)
    requires forall log <- a :: !Malformed(log, evidenceId, entries)
    ensures forall log <- b :: !Malformed(log, evidenceId, entries)
    ensures multiset(Decoded(a, evidenceId, entries)) == multiset(Decoded(b, evidenceId, entries))
    decreases |a|
  {
    hide Malformed, Decoded;
    if a == [] {
      assert |multiset(b)| == |b|;
    } else {
      var j := Sorting.FindAgain(a, b);
      var x, before, after := a[0], b[..j], b[j + 1..];
      assert a == [] + ([x] + a[1..]) && [] + a[1..] == a[1..];
      DecodedMiddle([], x, a[1..], evidenceId, entries);
      DecodedPermuted(a[1..], before + after, evidenceId, entries);
      assert forall log :: log in b ==> log == x || log in before + after;
      DecodedMiddle(before, x, after, evidenceId, entries);
    }
  }

  /** With distinct log indices the outcome is the same for every order of the input. */
  lemma InputOrderIrrelevant(a: seq<Log>, b: seq<Log>, evidenceId: string, entries: seq<MetadataEntry>)
    requires multiset(a) == multiset(b)
    requires forall log <- a :: !Malformed(log, evidenceId, entries)
    requires var d := Decoded(a, evidenceId, entries);
      forall i, j :: 0 <= i < j < |d| ==> d[i].logIndex != d[j].logIndex
    ensures forall log <- b :: !Malformed(log, evidenceId, entries)
    ensures Sorting.Sort(Decoded(a, evidenceId, entries), ByLogIndex)
         == Sorting.Sort(Decoded(b, evidenceId, entries), ByLogIndex)
  {
    hide Malformed, Decoded;
    DecodedPermuted(a, b, evidenceId, entries);
    var da, db := Decoded(a, evidenceId, entries), Decoded(b, evidenceId, entries);
    SortedApart(da, da);
    SortedApart(da, db);
    var ra, rb := Sorting.Sort(da, ByLogIndex), Sorting.Sort(db, ByLogIndex);
    assert forall t :: t in ra <==> t in multiset(ra);
    assert forall t :: t in rb <==> t in multiset(rb);
    Sorting.StrictOrderUnique(ra, rb, ByLogIndex);
  }

  lemma SortedApart(d: seq<DecodedTransfer>, e: seq<DecodedTransfer>)
    requires forall i, j :: 0 <= i < j < |d| ==> d[i].logIndex != d[j].logIndex
    requires multiset(d) == multiset(e)
    ensures var r := Sorting.Sort(e, ByLogIndex);
      Sorting.StrictlySorted(r, ByLogIndex) && multiset(r) == multiset(d)
  {
    var r := Sorting.Sort(e, ByLogIndex);
    LogIndexOrder();
    Sorting.SortIsStable(e, ByLogIndex);
    Sorting.PermutationDistinct(d, r);
    forall i, j | 0 <= i < j < |r| ensures r[i].logIndex < r[j].logIndex {
      assert ByLogIndex(r[i], r[j]);
      assert r[i] in d && r[j] in d;
    }
  }
}
