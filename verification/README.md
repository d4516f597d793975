# V52 forensic backend: verified model

This project models the parts of the V52 backend that carry state, arithmetic or integrity logic, and
proves what they keep over every input and every run.  Nothing in it is executed; `dafny verify
dfyconfig.toml` checks all of it.

| Modules | Part of the system |
|---|---|
| `Utf8`, `Json`, `CanonicalJson` | canonical JSON bytes: writing, reading back, and what equal bytes mean |
| `Vault`, `VaultRuns` | the append-only evidence vault and interleaved, crashing runs of `preserve_raw` |
| `Packaging`, `Verifier`, `Integrity` | the manifest, the `.v52.zip` packager, `/v1/verify`, `manifest_root`, and that they agree |
| `Circuit`, `RpcClient`, `Traffic` | the circuit breaker as a timed state machine, the attempt loop, `acquire`, and the traffic of whole runs |
| `Amounts`, `Erc20` | the two decimal printers, the strict ERC-20 Transfer decoder and its model validators |
| `Transfers` | windowed, cursor-paginated transfers and the wallet-flow answer |
| `Sessions`, `SessionRuns` | wallet challenges and sessions, purging, interleaved verification |
| `Reconciliation`, `ReconciliationLaws`, `Spellings`, `GraphEvents` | Graph events against receipt logs |
| `Acquisition` | L0 and L1 evidence records |
| `Credits` | the credit ledger |
| `Basics`, `Numerals`, `Sorting` | text, numerals and Python's stable sort |

Objects whose methods update their fields are classes here too (`EvidenceVault`, `JsonRpcProvider`,
`WalletSessionStore`, `EvidenceAcquisition`, `CreditLedger`), loops are loops, and pure code is functions.
Each method is proved against a specification function, and the properties are lemmas about that function.

How the parts are abstracted:

- The disk is a map from path to bytes.  The packager reads it through a `History`, one disk per access,
  of which it is only asked that files already there never change; `Integrity.VaultInUseIsAppendOnly` proves
  this of any vault run.
- SHA-256 is any function to 64 lower-case characters.  It is never assumed collision-free: where the
  program relies on that, the theorem ends in "or these two contents, found under one name, have one digest".
- A zip archive is the list of its entries; reading a name gives its last entry.
- The network is an arbitrary sequence of replies or an arbitrary page source; clock readings, nonces,
  tokens and evidence ids are inputs.

## Where code and prose differ

The model follows the code.

- `acquire_l1` is documented to give `WARNING` for a missing `_meta` (app/evidence/acquisition.py:174).  The
  code keeps `COMPLETE` and only adds a warning text: `Acquisition.MissingMetaStaysClean`.
- `INDEXER_LAG_SUSPECTED` is declared and never produced: `ReconciliationLaws.NeverIndexerLag`.
- Entries of `extra_data` are zipped but not put into the manifest, so a package with them passes its own
  verification only if each one reproduces a packaged file's digest, or if one of them is named like the
  manifest, replaces it, and declares the archive: `Integrity.BuildThenVerify` gives the exact condition.  An
  empty case is refused by the verifier.
- The existence check of `preserve_raw` does not protect concurrent calls with one id:
  `VaultRuns.SharedIdRace`.  Vault runs therefore give concurrent calls distinct ids, as the random suffix in
  app/evidence/provenance.py:44 does.
- An RPC error object whose `code` is an array or object (a stray reply, `RpcClient.StrayReply`) raises
  `TypeError` out of the attempt loop, and the breaker records nothing for that call.  The bound on failing
  traffic therefore holds of recorded failures, and of all admitted calls exactly where no such reply occurs:
  `Traffic.StrayRepliesAreUnbounded`, `Traffic.BoundedIffNoStrayReply`.
- Dropping a Graph event's `blockNumber` can turn CORROBORATED into MISMATCH, because it exposes the number
  nested in `transaction`: `ReconciliationLaws.DroppingBlockNumber` says exactly when.
- Hexadecimal numbers are recognised by a lower-case `0x` only, so `"0X1"` is unreadable; and a log's block
  number `0` defers to the receipt where `"0x0"` does not.  `Spellings.InterchangeableIffKept` says exactly
  which spellings of a number can be exchanged.
- The lower-bound early exit of the transfer loop can lose transfers unless timestamps descend
  (`Transfers.UnorderedPagesLose`); `Transfers.EarlyExitHarmless` gives the exact condition.
- An answer that is not `truncated` can still be incomplete, at the page cap:
  `Transfers.UntruncatedIsComplete`.
- Clock readings are taken before the lock, so they can reach it out of order, and then purging shows:
  `SessionRuns.PurgingShowsIffMissed` says exactly when.

## Model

| member | source | states |
|---|---|---|
| `CanonicalJson.CanonicalBytesIdentifyValues` | app/evidence/preservation.py:18-29 | canonical bytes are equal if and only if the JSON values are, whatever the key insertion order at any depth |
| `CanonicalJson.LoadsCanonicalize` | app/evidence/preservation.py:23-29 | reading canonical bytes back with a parser for sections 2-7 of RFC 8259 gives the value, keys sorted |
| `CanonicalJson.NormalizeDecides` | app/evidence/preservation.py:26 | sorting keys at every level makes two values identical exactly when they have the same members |
| `CanonicalJson.ParseRendered` | app/evidence/preservation.py:23-28 | compact rendering followed by anything but a digit parses to the value and leaves that rest |
| `CanonicalJson.ParseQuoted` | app/evidence/preservation.py:25 | every string survives escaping, including quotes, backslashes and control characters |
| `CanonicalJson.ParseIntText` | app/evidence/preservation.py:23-28 | every integer, negative or not, survives its decimal text |
| `CanonicalJson.NormalMembers` | app/evidence/preservation.py:26 | sorting an object's members loses, invents and duplicates nothing |
| `CanonicalJson.NormalizedField` | app/api/verify.py:85 | `get` on a canonicalised manifest finds what the original held |
| `CanonicalJson.LastPairWins` | app/api/verify.py:81 | of repeated keys in a JSON object the last one counts |
| `CanonicalJson.SpaceSkipped` | app/api/verify.py:81 | white space before a value does not matter |
| `CanonicalJson.EscapeRead` | app/api/verify.py:81 | a four-digit escape reads as the character of that code |
| `CanonicalJson.ShortEscapes` | app/api/verify.py:81 | what the eight short escapes read as |
| `Utf8.DecodeEncode` | app/evidence/preservation.py:29 | UTF-8 decoding returns the encoded text |
| `Utf8.EncodeDecode` | app/evidence/preservation.py:29 | decoding is strict: only the encoding of a text decodes to it |
| `Sorting.SortIsStable` | app/protocols/erc20.py:179 | `sorted` gives a sorted permutation that keeps equal keys in input order |
| `Sorting.StableSortUnique` | app/protocols/erc20.py:179 | that description leaves only one result |
| `Numerals.ReadBack` | app/protocols/erc20.py:144 | the digits of a number read back as the number, in base 10 and 16 |
| `Numerals.CanonicalUnique` | app/models/transfer.py:16 | a number has no other numeral without superfluous zeros |
| `Numerals.FixedWidth` | app/protocols/erc20.py:127 | a fixed-width hexadecimal word is the zero-padded numeral of its value |
| `Numerals.ParseHexLower` | app/providers/rpc.py:314 | where `int(text, 16)` is applied without a test of the prefix, letter case, of the prefix too, does not change the number read |
| `Vault.EvidenceVault.constructor` | app/storage/evidence_vault.py:42-46 | a new vault holds no files |
| `Vault.EvidenceVault.PreserveRaw` | app/storage/evidence_vault.py:48-89 | an existing JSON file is refused and nothing changes; otherwise the canonical bytes and their digest are written and returned, nothing else changes |
| `Vault.EvidenceVault.VerifyRaw` | app/storage/evidence_vault.py:91-109 | true exactly when the file exists and its hash is the expected one, in either letter case |
| `Vault.EvidenceVault.ReadRaw` | app/storage/evidence_vault.py:111-119 | the stored bytes, or not found |
| `Vault.EvidenceVault.ListCaseFiles` | app/storage/evidence_vault.py:121-128 | exactly the `.json` files directly in the case directory, once each, sorted |
| `Vault.PathsApart` | app/storage/evidence_vault.py:67-68 | JSON and sidecar paths never coincide, and differ for different ids |
| `VaultRuns.StoredEvidenceNeverChanges` | app/storage/evidence_vault.py:48-109 | over any interleaved run with crashes between the writes no stored file changes, every sidecar holds its file's hash, every returned pair still verifies |
| `VaultRuns.StepKeeps` | app/storage/evidence_vault.py:70-81 | each check, write, return or crash keeps the invariant and only adds files |
| `VaultRuns.UninterruptedCall` | app/storage/evidence_vault.py:70-89 | the steps of one call taken together are `PreserveRaw` |
| `VaultRuns.SharedIdRace` | app/storage/evidence_vault.py:70-80 | two concurrent calls with one id, from any state of the vault without that id: the pair returned first survives exactly when the digests agree |
| `Packaging.EvidenceExcludedIff` | app/packaging/packager.py:48-55 | stored evidence is excluded from packages only if its id starts like an environment file |
| `Packaging.ExcludedExactly` | app/packaging/packager.py:45-55 | files are excluded exactly for a name starting like an environment file or the suffixes log, pem, key and tmp, in any case |
| `Packaging.PreservedIsListed` | app/storage/evidence_vault.py:121-128 | a preserved payload is among the files a case listing shows, its sidecar is not |
| `Packaging.BuildManifest` | app/packaging/manifest.py:57-79 | the manifest declares every listed file with the digest of its content at listing time, whatever is appended meanwhile |
| `Packaging.VisitOrderIrrelevant` | app/packaging/manifest.py:57-62 | the manifest bytes do not depend on the order in which files are visited |
| `Packaging.CollectFiles` | app/packaging/packager.py:99-102 | exactly the case's files that are not excluded, once each |
| `Packaging.CopyFiles` | app/packaging/packager.py:123-126 | the second reading of each file still finds its content at listing time |
| `Packaging.AddExtras` | app/packaging/packager.py:129-132 | every `extra_data` entry becomes an archive entry with its canonical bytes, in order |
| `Packaging.BuildV52Zip` | app/packaging/packager.py:58-141 | hashing and copying at different moments of a vault in use still gives the package of the moment of listing |
| `Packaging.LaterExtends` | app/storage/evidence_vault.py:70-81 | every later disk of an append-only history still has each earlier file, unchanged |
| `Verifier.VerifyPackage` | app/api/verify.py:47-134 | which uploads are rejected with 413 or 400, which raise, and what the report of the others contains |
| `Verifier.CheckFiles` | app/api/verify.py:92-134 | declared files give errors in declaration order, undeclared ones follow, and `checked` counts the present ones |
| `Verifier.FindUndeclared` | app/api/verify.py:114-124 | every undeclared name except the manifest's is reported, once |
| `Verifier.PassMeansIntact` | app/api/verify.py:92-126 | PASS if and only if all declared files are present with their digests and nothing else is in the archive; all declared files were then checked |
| `Verifier.NoDeclaredErrors` | app/api/verify.py:95-112 | the first pass finds no error exactly when every declared digest matches |
| `Verifier.ReportExplained` | app/api/verify.py:92-126 | each kind of error names exactly the missing, altered or undeclared files, and the count is that of the declared files present |
| `Verifier.ReadLast` | app/api/verify.py:100 | reading a present name gives the content of an entry of that name |
| `Integrity.BuildThenVerify` | app/packaging/packager.py:96-134 | for any `extra_data`, building then verifying passes if and only if the size fits and either at least one file was packaged and every extra entry reproduces a packaged file's digest, or an extra entry replaces the manifest and declares exactly what is in the archive; all declared files were then checked |
| `Integrity.FreshPackageVerifies` | app/api/verify.py:70-134 | without extra data a nonempty package passes with every packaged file checked, and an empty one is refused with 400 |
| `Integrity.PackageRead` | app/packaging/packager.py:119-132 | what each name of a built package reads as: extra entries shadow the manifest and the files they name |
| `Integrity.ReadsDeclaredFiles` | app/api/verify.py:80-85 | the verifier reads exactly the digests that the manifest builder computed |
| `Integrity.PackagedManifestSays` | app/packaging/manifest.py:64-79 | what each member of the packaged manifest, and of its scope, reads as |
| `Integrity.ExtraManifestWins` | app/packaging/packager.py:129-132 | an extra entry named like the manifest is what gets verified |
| `Integrity.SameRootSameFiles` | app/api/anchor.py:128-141 | two passing packages with one `manifest_root` hold the same files, or a name they share stands in them for two different contents with one digest |
| `Integrity.VaultInUseIsAppendOnly` | app/storage/evidence_vault.py:70-81 | any run of the vault is a history the packager may read |
| `Circuit.OpenIffThreeFailures` | app/providers/rpc.py:149-170 | over any run the circuit is open if and only if three failures are counted |
| `Circuit.CoolDownPaid` | app/providers/rpc.py:149-161 | while calls only fail, at most c of them in flight, the (c+2)-nd admission after an admission waits out the cool-down |
| `Circuit.AdmissionsSpread` | app/providers/rpc.py:149-170 | while calls only fail, any c+3 consecutive admissions span 30 seconds |
| `Circuit.FailingTrafficBound` | app/providers/rpc.py:149-170 | while calls only fail, at most (c+2)(floor(T/30)+1) calls are admitted within T seconds |
| `Circuit.FailuresSpread` | app/providers/rpc.py:149-170 | without a success, and whatever calls raise in between, any c+3 consecutive recorded failures span 30 seconds |
| `Circuit.RecordedFailuresBound` | app/providers/rpc.py:149-170 | so at most (c+2)(floor(T/30)+1) failures are recorded within T seconds |
| `Traffic.RunAsEvents` | app/providers/rpc.py:172-308 | a run of calls of the client, one at a time, is a legal run of the circuit with the same admissions, recorded failures and final breaker, calls that raise included |
| `Traffic.RecordedFailuresAreFew` | app/providers/rpc.py:149-170 | one call at a time and none answered: at most 3(floor(T/30)+1) calls are recorded as failures within T seconds, whatever calls raise in between |
| `Traffic.AdmittedCallsAreFew` | app/providers/rpc.py:149-170 | the same of all calls that get past the check, if none raises |
| `Traffic.AdmittedOrRefused` | app/providers/rpc.py:183-308 | every admitted call of an unanswered run is recorded as a failure or raises |
| `Traffic.RequestsPerCall` | app/providers/rpc.py:190-201 | a run sends between one and max_retries+1 HTTP requests per admitted call, and none for refused ones |
| `Traffic.FailingTraffic` | app/providers/rpc.py:149-308 | without an answered call and without a stray reply, at most 3(floor(T/30)+1) calls get past the check within T seconds and (max_retries+1) times as many HTTP requests are sent |
| `Traffic.StrayRepliesAreUnbounded` | app/providers/rpc.py:270-275 | the input on which the bound fails: against stray replies any number of calls is admitted in one instant and the circuit stays closed |
| `Traffic.BoundedIffNoStrayReply` | app/providers/rpc.py:149-308 | for any set of replies a network may give, the bound on admissions holds of every client if and only if none of them is stray |
| `Circuit.BoundAttained` | app/providers/rpc.py:163-166 | three calls can fail in one instant, and the next is refused |
| `RpcClient.JsonRpcProvider.constructor` | app/providers/rpc.py:108-127 | a negative retry count becomes 0; the circuit starts closed |
| `RpcClient.JsonRpcProvider.CheckCircuit` | app/providers/rpc.py:149-161 | admits exactly when closed or cooled down; cooling down forgets the failures |
| `RpcClient.JsonRpcProvider.RecordFailure` | app/providers/rpc.py:163-166 | one more failure, and the circuit (re)opens from the third on |
| `RpcClient.JsonRpcProvider.RecordSuccess` | app/providers/rpc.py:168-170 | the circuit closes and the count restarts |
| `RpcClient.JsonRpcProvider.RunAttempts` | app/providers/rpc.py:193-308 | the loop stops at the first answer, final failure or the limit, records exactly that, sleeps the backoff of the retries, and never gets past its end |
| `RpcClient.JsonRpcProvider.Call` | app/providers/rpc.py:172-308 | a refused call touches nothing; an admitted one makes 1 to max_retries+1 attempts (1 outside the read-only set), records one success or failure and sleeps at most the closed-form bound |
| `RpcClient.JsonRpcProvider.ValidateChainId` | app/providers/rpc.py:310-339 | an answer that writes n, as a number or in base 16 with whatever sign, prefix and case, succeeds if and only if n is the expected chain id and is CHAIN_MISMATCH otherwise; what writes no number is an invalid response |
| `Numerals.SignedHexReads` | app/providers/rpc.py:314 | `int(text, 16)` reads exactly the texts of an optional sign, an optional prefix and digits, as the number they write |
| `RpcClient.WrongChainStops` | app/providers/rpc.py:375-378 | an endpoint that writes another chain id, or none, is asked nothing further |
| `RpcClient.JsonRpcProvider.Acquire` | app/providers/rpc.py:375-417 | which calls are made in which order, how their answers determine the payload or error, and that the status tells whether the receipt is there |
| `RpcClient.PayloadIsWhatWasAnswered` | app/providers/rpc.py:375-417 | a payload exists exactly when transaction and receipt calls were answered; its transaction, receipt and block are those answers, for the expected chain |
| `RpcClient.PayloadLabels` | app/providers/rpc.py:378-412 | the labels of a payload, the transaction asked for, and the logs as those of the receipt |
| `RpcClient.BlockAsked` | app/providers/rpc.py:351-363 | a block is asked for by hash when it is named by 64 digits, else by number |
| `RpcClient.RateLimitAnswers` | app/providers/rpc.py:486-489 | of RPC errors exactly those with code 429 or -32005, or with "rate" or "too many" in the message in any case, are retried as rate limits; the message is passed on |
| `RpcClient.AttemptsByMethod` | app/providers/rpc.py:34-42 | against replies that are always retried exactly the seven reading methods make max_retries+1 attempts, any other method one |
| `RpcClient.LastAttemptUnique` | app/providers/rpc.py:193-300 | the replies determine the number of attempts |
| `RpcClient.BackoffClosedForm` | app/providers/rpc.py:482-483 | n sleeps take 50(2^n-1) ms up to n = 4 and 750+500(n-4) ms beyond |
| `RpcClient.BackoffMonotone` | app/providers/rpc.py:482-483 | fewer retries sleep no longer |
| `RpcClient.ContainedSomewhere` | app/providers/rpc.py:489 | a substring that is found stands somewhere in the text |
| `RpcClient.ContainedIsFound` | app/providers/rpc.py:489 | a substring that stands in the text is found |
| `RpcClient.NotFoundSaysSo` | app/providers/rpc.py:395-399 | the error for an unknown transaction contains the words acquisition looks for |
| `Amounts.FormattedIsExact` | app/protocols/erc20.py:63-75 | every printed amount is canonical and denotes exactly amount / 10^decimals |
| `Amounts.FormattedIsOnly` | app/protocols/erc20.py:63-75 | no other canonical decimal denotes that number |
| `Amounts.FormattedParts` | app/protocols/erc20.py:72-75 | padding and slicing split the digits into whole part and stripped fraction |
| `Amounts.PrintersAgree` | app/api/access.py:29-32 | the USDC printer equals the token printer at 6 decimals on every digit string |
| `Amounts.MicroUnits` | app/api/access.py:31-32 | `divmod` and six-digit formatting split the digits where padding and slicing do |
| `Erc20.ModelAcceptsFields` | app/protocols/erc20.py:140-153 | the transfer model never rejects or alters what the decoder hands it |
| `Erc20.AmountRawDenotesData` | app/protocols/erc20.py:127-144 | `amount_raw` is the canonical numeral of the data word, below 2^256 and at most 78 digits |
| `Erc20.FormattedAmountIsExact` | app/protocols/erc20.py:130-138 | there is a formatted amount exactly when decimals are known, and it is worth `amount_raw` at them |
| `Erc20.DecodeEncode` | app/protocols/erc20.py:106-153 | encoding any transfer as the Transfer event of EIP-20 and decoding it, with any token metadata, returns its fields, lower-cased, with the metadata's symbol, decimals and exact formatted amount, or the metadata's error |
| `Erc20.DecodedLogIsEncoding` | app/protocols/erc20.py:106-153 | conversely, a log that decodes is the encoding of what it decodes to, up to letter case |
| `Erc20.DecodeTransferLogs` | app/protocols/erc20.py:156-179 | fails exactly when some Transfer log is malformed, with the first one's error; otherwise each position of a Transfer log contributes exactly what it decodes to, ordered by log index and then position |
| `Erc20.ArrangedCounts` | app/protocols/erc20.py:163-179 | so each transfer occurs as often as there are Transfer logs decoding to it |
| `Erc20.TransferLogIff` | app/protocols/erc20.py:165-170 | a Transfer log is one whose topics are an array starting with the event's topic, in any case |
| `Erc20.IncompleteIsMalformed` | app/protocols/erc20.py:116-124 | a Transfer log with another number of topics than three, or without a data word, is malformed, not skipped |
| `Erc20.MetadataLookup` | app/protocols/erc20.py:78-103 | the first entry whose key is the token in any case decides; which metadata is invalid or mismatched |
| `Erc20.QuantityReads` | app/protocols/erc20.py:26-39 | a quantity is a non-negative integer or its digits behind 0x, and nothing else |
| `Erc20.BlankEvidence` | app/protocols/erc20.py:113-114 | evidence ids of white space alone are refused first |
| `Erc20.StoredIsNormal` | app/models/transfer.py:53-79 | what the model stores is lower-cased, canonical, deduplicated and otherwise unchanged |
| `Erc20.ResultIsStable` | app/protocols/erc20.py:179 | the result is a log-index-sorted permutation that keeps equal indices in input order |
| `Erc20.InputOrderIrrelevant` | app/protocols/erc20.py:156-179 | with distinct log indices every permutation of the input gives the same result |
| `Erc20.DecodedPermuted` | app/protocols/erc20.py:164-177 | permuting the input permutes what is decoded and cannot make it fail |
| `Erc20.ValidateIdempotent` | app/models/transfer.py:53-79 | what the model stores it accepts again unchanged |
| `Erc20.DedupeKeepsMembers` | app/models/transfer.py:74-79 | evidence ids keep their members, each once |
| `Transfers.ReadItems` | app/providers/alchemy_transfers.py:97-130 | one page: take up to the limit of its in-window items, and whether the page reached below the window |
| `Transfers.AcquirePages` | app/providers/alchemy_transfers.py:89-134 | the nested loops equal filter-then-take; they fail exactly when a request fails before limit or lower bound is reached |
| `Transfers.LowerBoundLosesNothing` | app/providers/alchemy_transfers.py:106-133 | with descending timestamps the pages after the lower bound hold nothing in the window |
| `Transfers.EarlyExitHarmless` | app/providers/alchemy_transfers.py:131-133 | in any order of timestamps the early exit loses nothing if and only if the limit was reached before it or no page after one that goes below the window holds an item of the window |
| `Transfers.UnorderedPagesLose` | app/providers/alchemy_transfers.py:106-133 | two unordered pages on which the early exit loses a transfer |
| `Transfers.UntruncatedIsComplete` | app/providers/alchemy_transfers.py:89-134 | fewer transfers than the limit, timestamps descending: the answer holds every in-window transfer of the whole cursor chain if and only if the pages beyond the page cap hold none |
| `Transfers.NothingBeyond` | app/providers/alchemy_transfers.py:131-133 | which is so when the last page read has no cursor, or a page read went below the window |
| `Transfers.AcquireWalletFlow` | app/api/wallet_flow.py:20-99 | which requests give 422, 503 or 502; else the items served for the address as receiver, and as sender, page by page; from a service that answers requests as asked, incoming is only what the address received and outgoing only what it sent on the days asked for; `truncated` exactly when one is full, and when it is not, completeness exactly if nothing lies beyond the cap |
| `Transfers.CompleteListsAll` | app/api/wallet_flow.py:51-93 | a complete answer lists every item of the days asked for, with its counterparty and all its fields |
| `Transfers.FlowsItems` | app/providers/alchemy_transfers.py:110-128 | listed is what stands in the window, field by field, and nothing else |
| `Transfers.WindowOfDays` | app/api/wallet_flow.py:49-50 | the window is the first day from its start to the last day to its end |
| `Transfers.MadeUpIdsDiffer` | app/providers/alchemy_transfers.py:115-116 | ids made up for items without one differ between any two places |
| `Sessions.WalletSessionStore.constructor` | app/security/wallet_sessions.py:41-44 | a new store is empty |
| `Sessions.WalletSessionStore.PurgeExpired` | app/security/wallet_sessions.py:50-56 | exactly what expires after the reading stays |
| `Sessions.WalletSessionStore.CreateChallenge` | app/security/wallet_sessions.py:58-90 | purges, then stores the challenge for five minutes under the lower-cased address |
| `Sessions.WalletSessionStore.TakeChallenge` | app/security/wallet_sessions.py:95-98 | the challenge is returned and gone, in one critical section |
| `Sessions.WalletSessionStore.MintSession` | app/security/wallet_sessions.py:121-122 | the session is stored under the token's digest |
| `Sessions.WalletSessionStore.VerifyChallenge` | app/security/wallet_sessions.py:92-128 | granted if and only if the challenge is held, unexpired, has the given message and was signed by its address; the exact non-ASCII failure; the principal lasts eight hours; the challenge is consumed whatever the outcome |
| `SessionRuns.GoodVerificationResolves` | app/security/wallet_sessions.py:58-134 | in any run with monotone readings, a challenge first taken within five minutes with its message and the owner's signature, and then minted, resolves under its token for eight hours |
| `Sessions.WalletSessionStore.Resolve` | app/security/wallet_sessions.py:130-134 | the unexpired principal of the token, if any |
| `SessionRuns.PurgingIsInvisible` | app/security/wallet_sessions.py:50-134 | with readings monotone in lock order every answer equals that of a store that never purges |
| `SessionRuns.PurgingGrantsNoMore` | app/security/wallet_sessions.py:50-56 | whatever the clocks do, purging never grants what the reference refuses |
| `SessionRuns.PurgedIsWhatWasReached` | app/security/wallet_sessions.py:50-56 | in any clock order the purged store is what a store without purging holds, less the entries whose expiry some reading since they were stored has reached |
| `SessionRuns.PurgingShowsIffMissed` | app/security/wallet_sessions.py:50-134 | over any run and any clock order the answers agree if and only if no lookup finds an entry unexpired at its own reading, reached by an earlier one, and not refused anyway |
| `SessionRuns.LateReadingPurges` | app/security/wallet_sessions.py:131-134 | a run on which they do not |
| `SessionRuns.SessionsAreJustified` | app/security/wallet_sessions.py:92-134 | under any interleaving sessions never outnumber challenges, and a resolved principal is unexpired and backed by one consumed challenge with matching message and signer, less than 8 h 5 min old |
| `SessionRuns.InvariantHolds` | app/security/wallet_sessions.py:58-134 | the invariant behind it survives any legal run, including verifications that die half-way |
| `Reconciliation.ReconcileGraphEventWithReceipt` | app/evidence/reconciliation.py:56-160 | the search loop and the comparison compute the outcome function, exceptions included |
| `Reconciliation.CompareWithLog` | app/evidence/reconciliation.py:101-160 | filling the compared fields and collecting mismatches and warnings one by one gives the outcome for the log found |
| `Reconciliation.CorroboratedMeansAgrees` | app/evidence/reconciliation.py:63-160 | CORROBORATED if and only if hash, index and contract are present and the first log with the index agrees on them and on every non-empty optional field |
| `GraphEvents.CorroboratedInJson` | app/evidence/reconciliation.py:56-217 | the same over the JSON members alone: where hash, contract, index and block number are taken from and which place goes first, and what the first log with the index and the receipt must then say |
| `GraphEvents.SwapOfDefaultQuery` | app/evidence/acquisition.py:28-50 | a swap as the default query returns it claims the ids of its transaction and its pool, and its transaction's block number |
| `GraphEvents.TopicsRead` | app/evidence/reconciliation.py:116-117 | what topics are compared for an array, text, a dict or nothing, and when reading them raises |
| `GraphEvents.SwapsRead` | app/evidence/reconciliation.py:163-169 | the swaps are those under data of the response, or of the payload itself |
| `GraphEvents.NoSwapsRead` | app/evidence/reconciliation.py:163-169 | without data or swaps there are none |
| `GraphEvents.DictsInOrder` | app/evidence/reconciliation.py:169 | of the swaps the dicts are kept, in order |
| `GraphEvents.MisshapenSwapsRaise` | app/evidence/reconciliation.py:166-169 | a response or data that is no dict, or swaps that cannot be iterated, raise |
| `Reconciliation.CorroboratedReportsReceipt` | app/evidence/reconciliation.py:150-160 | everything a CORROBORATED result reports is the receipt's, without a warning |
| `Reconciliation.MismatchIsExplained` | app/evidence/reconciliation.py:89-148 | a MISMATCH names the differing fields, or an index no log has; the reorg warning exactly when the block hash differs |
| `Reconciliation.AgreementOfFields` | app/evidence/reconciliation.py:101-130 | no compared pair differs exactly when the log agrees with the event |
| `Reconciliation.FindLogIsFirstMatch` | app/evidence/reconciliation.py:84-87 | the first log with the index is the one compared |
| `Reconciliation.HitHasPosition` | app/evidence/reconciliation.py:84-87 | a log that is compared is the first with the index |
| `Reconciliation.NothingDiffers` | app/evidence/reconciliation.py:126-130 | the list of mismatches is empty exactly when no field differs |
| `ReconciliationLaws.SpellingIrrelevant` | app/evidence/reconciliation.py:203-217 | letter case of text and the spelling of numbers do not change the outcome, as long as no 0x prefix changes case and a log's zero block number does not stop or start deferring to a receipt that says otherwise |
| `ReconciliationLaws.ReadUnlessCapital` | app/evidence/reconciliation.py:209-217 | the program reads exactly the numbers that are written without a capital prefix |
| `ReconciliationLaws.NumberSpellings` | app/evidence/reconciliation.py:209-217 | integer, decimal text with or without sign, and 0x text of a number read the same |
| `Spellings.InterchangeableIffKept` | app/evidence/reconciliation.py:109-217 | at each of the six places of a number, two spellings of it give one status in every event and receipt if and only if the 0x prefix keeps its case and, for a log's block number, both or neither defer to the receipt's or deferring makes no difference |
| `Spellings.CapitalPrefixMatters` | app/evidence/reconciliation.py:214 | first input on which spelling matters: "0x1" is CORROBORATED where "0X1" is INSUFFICIENT_DATA |
| `Spellings.ZeroBlockNumberMatters` | app/evidence/reconciliation.py:109 | second one: a log's block number "0x0" is CORROBORATED where 0 defers to the receipt and is a MISMATCH |
| `Spellings.WitnessStatus` | app/evidence/reconciliation.py:56-160 | the status of an event with its receipt as a matter of the numbers read from them |
| `ReconciliationLaws.DroppingKeepsCorroborated` | app/evidence/reconciliation.py:116-130 | dropping blockHash, topics or data never loses CORROBORATED |
| `ReconciliationLaws.DroppingBlockNumber` | app/evidence/reconciliation.py:194-200 | dropping blockNumber keeps CORROBORATED if and only if the nested one is unreadable or agrees |
| `ReconciliationLaws.ReconcileGraphSwaps` | app/evidence/reconciliation.py:10-53 | the guards' single results, and past them one result per swap, in order |
| `Acquisition.EvidenceAcquisition.Preserve` | app/evidence/acquisition.py:129-140 | a refused write turns the record PARTIAL without path or digest; otherwise the file is stored as recorded |
| `Acquisition.EvidenceAcquisition.AcquireL0` | app/evidence/acquisition.py:78-161 | the exact condition of each status; COMPLETE means transaction, receipt and expected chain id are in the payload and the vault file hashes to the record |
| `Acquisition.EvidenceAcquisition.AcquireL1` | app/evidence/acquisition.py:163-265 | the exact condition of each status; GraphQL errors give PARTIAL, a `_meta` that reports indexing errors gives WARNING, a time-out PARTIAL, other failures FAILED; COMPLETE means a clean answer whose payload was preserved |
| `Acquisition.IndexAsReported` | app/providers/the_graph.py:162-197 | block, deployment and indexing errors are recorded as the `_meta` says, its own or the first one a level deeper |
| `Acquisition.AnswerSays` | app/providers/the_graph.py:99-160 | a time-out and other failures are told apart, errors are seen, and the payload keeps the response as it came |
| `Acquisition.GraphPayloadFields` | app/providers/the_graph.py:152-160 | what each member of a preserved Graph payload reads as |
| `Acquisition.MetaPayloadFields` | app/providers/the_graph.py:178-183 | what each preserved finding about the index reads as |
| `Acquisition.MisshapenAnswersRaise` | app/providers/the_graph.py:131-139 | responses that are not JSON, no dicts, or whose errors or data are misshapen raise |
| `Acquisition.RecordsStayTrue` | app/storage/evidence_vault.py:70-109 | a record's path, digest and content hold for the rest of any run |
| `Acquisition.PreservedExtends` | app/storage/evidence_vault.py:70-81 | preserving a fresh file touches nothing that was there and keeps sidecars in step |
| `Acquisition.MissingTransactionIsUnknown` | app/evidence/acquisition.py:117-122 | a transaction the node does not know gives status UNKNOWN |
| `Acquisition.MissingMetaStaysClean` | app/providers/the_graph.py:165-195 | a response without `_meta`, whatever else its data holds, is not downgraded |
| `Credits.CreditLedger.constructor` | app/billing/credits.py:32-38 | a new ledger is empty |
| `Credits.CreditLedger.TakeSnapshot` | app/billing/credits.py:40-49 | the wallet's three counters, zero when unknown |
| `Credits.CreditLedger.GrantSettled` | app/billing/credits.py:51-63 | bad input is refused; a used settlement id changes nothing; a new one adds to balance and purchases |
| `Credits.CreditLedger.Consume` | app/billing/credits.py:65-73 | moves one credit from available to consumed, or refuses and changes nothing |
| `Credits.CreditLedger.Refund` | app/billing/credits.py:75-83 | moves one back if any was consumed |
| `Credits.CreditLedger.Clear` | app/billing/credits.py:85-92 | the ledger is as new |
| `Credits.CreditsConserved` | app/billing/credits.py:51-83 | over any run available + consumed = purchased for every wallet, all non-negative |
| `Credits.PurchasesAreFirstGrants` | app/billing/credits.py:58-61 | each wallet's purchases are the first-accepted credits of distinct settlement ids |
| `Credits.TotalPurchased` | app/billing/credits.py:58-61 | so are all purchases together |
| `Credits.ReplayChangesNothing` | app/billing/credits.py:58-63 | a used settlement id never grants again, with any wallet or amount |
| `Credits.RefundUndoesConsume` | app/billing/credits.py:65-83 | a refund after a reservation restores every wallet's snapshot |
| `Credits.SnapshotShowsUse` | app/billing/credits.py:40-83 | over any run a wallet's snapshot shows its first-accepted credits as purchased, successful reservations less effective refunds as consumed, and the rest as available |

## Left out

Abstractions:

- JSON floats, NaN, dates, bytes and non-string keys; surrogate escapes and lone surrogates (a Dafny character is a scalar value); UTF-16, UTF-32 and byte-order-mark detection in `json.loads`.
- `str.lower` beyond ASCII letters, `str.strip` beyond ASCII whitespace, and `int()` on underscores, surrounding whitespace or non-ASCII digits.
- SHA-256, signature recovery, nonces, tokens, the challenge text and the zip container are abstract or inputs; unreadable or encrypted archive members are not modelled.
- Partial writes inside one file write, other deletions on disk, and path aliasing (`..`, repeated separators): paths and ids are opaque text.
- Float rounding of clock readings and sleeps: times are reals, or whole microseconds where the source uses `datetime`.
- Locks are critical sections that happen at one moment; a case listing is one moment too.
- Task cancellation and overlapping use of one RPC client inside `acquire`: calls of one acquisition follow each other (the circuit's runs do overlap).
- RPC and Graph error texts are shortened and not redacted; `str()` of a JSON value that is not a string is an arbitrary function.
- Transfer items come parsed: failures of timestamp or `blockNum` parsing are not modelled, and an item whose `hash` is null rather than absent is taken as absent.
- `acquired_at`, `updated_at`, log lines, and the fixed warning texts of the wallet-flow answer.
- The size guard of The Graph client, which only adds a warning text, and type coercion of the evidence record's optional Graph fields.

Parts of the repository:

- HTTP routing, settings, dependency injection, x402 payments, MCP probing, secret redaction: plumbing around the parts above.
- The HSK registry protocol beyond `manifest_root`: the contract's source is not part of this model.
- The DeFi subgraph readers, `AuditPipeline`'s status table and `DirectFlowAnalysis`: field copying and short case analyses.
- `get_logs`, `eth_call` and `status_payload` of the RPC client: single calls without a property of their own.
