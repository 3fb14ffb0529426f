# Signature coordinator: authorization core in Dafny

This project models the authorization engine of a multi-signature
coordination service for Stellar transactions. Key holders send signatures
for a pending transaction over time. The service decides whether the
collected signatures meet each source account's weighted threshold and,
once they do, forwards the signed envelope to a callback or to Horizon.

Three parts of the service are modelled as pure functions over immutable
datatypes, with lemmas about them:

- **Threshold policy** (`threshold.dfy`, `src/lib/threshold.ts`). Each
  operation type has a fixed level (low, med, high), and unknown types count
  as high. A list of operations requires the highest of its levels, and an
  empty list requires high. The level selects one of the account's three
  numeric thresholds. An account is charged for the operations it sources and
  for every operation without a source.
- **Signature set logic** (`stellar.dfy`, `src/lib/stellar.ts`). This covers
  the deduplicated source accounts and positive-weight signer keys, the hint
  pre-match of a decorated signature against a key, and the check that one
  key alone meets every source account's threshold (a missing signer entry is
  an invariant violation, not `false`). It also covers collation of signature
  lists by byte-equality of their XDR encoding.
- **Submission step** (`submit.dfy`, `src/endpoints/submit.ts`). One call of
  `submitTransaction` is a function `Step`. Its inputs are the stored rows,
  the sufficiency verdict, the parsed URI, the Horizon servers and what the
  POST yields. It returns the 404 or 400 early exit, the unknown-network
  failure, or the submission made together with the persisted status, the
  notification and the value returned or the error rethrown.

Supporting modules: `results.dfy` (`Option`, `Result`), `sequences.dfy`
(the `dedupe` helper both source files define), `xdr.dfy` (the decorated
signature and its XDR encoding, RFC 4506 sections 4.9 and 4.10, with a
decoder), `ledger.dfy` (operations, transactions, accounts, and JavaScript
truthiness of optional strings).

Behaviours of the code that the model reproduces deliberately:

- Operations without a source count against *every* account whose threshold
  is computed, not only the root account (`src/lib/threshold.ts:78`).
  `ThresholdProperties.UnsourcedOperationsCountForEveryAccount` shows a
  co-source account whose threshold rises from low to med because of this.
- After a remote answer of 400 or more, the request is persisted as `failed`.
  But the in-memory request is then set to `submitted` and serialized into
  the notification (`src/endpoints/submit.ts:110`). `Step` returns both
  values. `SubmitProperties.RejectionPersistsFailedButNotifiesSubmitted`
  states that they disagree.
- A transport failure is rethrown to the caller after it is persisted and
  notified (`src/endpoints/submit.ts:122`). The notification carries the
  status the request had when it was loaded.
- The Horizon lookup runs before the callback is consulted. A request on an
  unknown network therefore fails even when it has a callback
  (`SubmitProperties.UnknownNetworkPrecedesCallback`).

Other observations recorded as lemmas:

- Only the *first* signer row of an account decides whether its signature
  is attached (`src/endpoints/submit.ts:51-53`). A key with weight 0 on one
  source account and positive weight on a later one has its signature left
  off (`SubmitProperties.FirstSignerRowDecides`).
- Collation compares incoming signatures only against the previous list, so
  a signature repeated in one batch is appended each time
  (`StellarProperties.CollateKeepsBatchDuplicates`).
- Operation types that name a JavaScript prototype property (such as
  `constructor`) make the source's running maximum `NaN`. The source then
  falls back to `high`, which is also what the model returns for those
  unlisted types.

## Model

| member | source | states |
|---|---|---|
| Sequences.Dedupe | src/lib/stellar.ts:6 | the result has no duplicates and has exactly the input's elements |
| Sequences.DedupeKeepsFirstOccurrenceOrder | src/lib/stellar.ts:6 | the result lists elements in the order of their first occurrence in the input |
| Sequences.DedupeKeepsHead | src/lib/stellar.ts:22-23 | the first input element heads the result |
| Sequences.DedupeOfDistinct | src/lib/stellar.ts:6 | a duplicate-free list is left unchanged |
| Sequences.DedupeAbsorbs | src/lib/stellar.ts:31-39 | deduplicating an accumulator before appending to it gives the same as one dedupe of the concatenation |
| Xdr.Encode | src/lib/stellar.ts:71-72 | the encoding is the 4 hint bytes, a big-endian length word equal to the signature length, the signature bytes and 0 to 3 zero bytes of padding to a multiple of four, and nothing more |
| Xdr.Decode | src/lib/stellar.ts:71-73 | the inverse of the encoding compared at line 73: whatever decodes re-encodes to exactly the input bytes |
| Xdr.DecodeEncode | src/lib/stellar.ts:71-72 | decoding the encoding of a decorated signature gives it back |
| Xdr.EncodeInjective | src/lib/stellar.ts:73 | two decorated signatures have equal encodings exactly when they are equal |
| Threshold.LevelOf | src/lib/threshold.ts:5-32 | a type is low exactly when the table lists it as low, med exactly when listed as med, and high otherwise, including every unlisted type |
| Threshold.Value | src/lib/threshold.ts:34-38 | every level has a rank from 1 to 3, with rank 1 exactly for low and rank 3 exactly for high |
| Threshold.ValueRoundTrip | src/lib/threshold.ts:34-44 | reading a level's rank back through the reverse table gives the level |
| Threshold.LevelOfValue | src/lib/threshold.ts:40-44 | ranks 1 to 3 map back to their level; any other number, including the initial 0, gives high |
| Threshold.MaxValue | src/lib/threshold.ts:65-72 | the running maximum is 0 exactly for no operations, bounds every operation's rank, and is attained by one of them |
| Threshold.RequiredLevel | src/lib/threshold.ts:64-75 | no operations require high; otherwise the level is at least every operation's level and equals one of them |
| Threshold.AccountThreshold | src/lib/threshold.ts:46-57 | the threshold is the account's low, med or high value, picked by the level's rank 1, 2 or 3 |
| Threshold.OperationsOf | src/lib/threshold.ts:78 | an operation is kept exactly when it has no (or an empty) source or names the account |
| Threshold.HighestApplyingAttains | src/lib/threshold.ts:77-81 | when some operation counts against the account, one of highest level among them attains the level its filtered list requires |
| Threshold.AccountTransactionThreshold | src/lib/threshold.ts:77-82 | the threshold is the account's value at the highest level among the operations counting against it (no source, or the account as source), and its high value when none does |
| ThresholdProperties.RequiredLevelMonotone | src/lib/threshold.ts:67-72 | a non-empty list requires no more than any list containing all its operations |
| ThresholdProperties.AppendNeverLowers | src/lib/threshold.ts:71-74 | appending an operation to a non-empty list never lowers the level |
| ThresholdProperties.RequiredLevelOrderIndependent | src/lib/threshold.ts:67-72 | lists with the same operations, in any order or multiplicity, require the same level |
| ThresholdProperties.FirstOperationCanLowerLevel | src/lib/threshold.ts:65-74 | the empty list requires high while a single payment requires med |
| ThresholdProperties.AccountThresholdMonotone | src/lib/threshold.ts:46-56 | with ordered thresholds, a higher level never gives a smaller threshold |
| ThresholdProperties.ThresholdIgnoresOtherAccounts | src/lib/threshold.ts:78-80 | transactions that agree on the operations applying to an account give it the same threshold |
| ThresholdProperties.UnsourcedOperationsCountForEveryAccount | src/lib/threshold.ts:78 | a co-source account whose only own operation is low gets its low value, and a source-less payment added to the transaction raises it to its med value |
| Stellar.OperationSources | src/lib/stellar.ts:24-26 | exactly the non-empty explicit operation sources occur |
| Stellar.AllSources | src/lib/stellar.ts:21-28 | the root source comes first, there are no duplicates, and the accounts are exactly the root plus every non-empty operation source |
| StellarProperties.AllSourcesInFirstOccurrenceOrder | src/lib/stellar.ts:21-28 | the sources are listed in order of first appearance in the root followed by the collected operation sources |
| StellarProperties.OperationSourcesConcat | src/lib/stellar.ts:24-26 | collecting sources distributes over concatenation of the operations and one operation contributes exactly its non-empty source, so the collected sources follow operation order |
| Stellar.PositiveSignerKeys | src/lib/stellar.ts:35-37 | a key occurs exactly when some signer entry with that key has positive weight |
| Stellar.AllSigners | src/lib/stellar.ts:30-41 | no duplicates; a key occurs exactly when some account lists it with positive weight, so zero-weight signers never appear |
| Stellar.AllSignersIsDedupeOfAllKeys | src/lib/stellar.ts:30-41 | the reduce equals one dedupe of all positive-weight keys, account by account |
| Stellar.SignatureMatchesPublicKey | src/lib/stellar.ts:43-51 | an invalid key is an error; otherwise the result is true exactly when the signature's hint equals the key's hint |
| Stellar.FindSigner | src/lib/stellar.ts:60 | absent exactly when no entry has the key; otherwise the first entry with the key |
| Stellar.SignerVerdicts | src/lib/stellar.ts:58-66 | an error exactly when some account lacks the key; otherwise one verdict per account, weight against that account's threshold |
| Stellar.SignatureIsSufficient | src/lib/stellar.ts:53-68 | an invariant-violation error exactly when some account lacks an entry for the key, even if another account fails on weight; otherwise true exactly when the key's weight meets every account's transaction threshold; true for no accounts |
| Stellar.ContainsSignature | src/lib/stellar.ts:70-74 | byte-equality search finds the needle exactly when it is in the list |
| Stellar.NewSignatures | src/lib/stellar.ts:88-91 | kept exactly the incoming signatures absent from the previous list, each with its incoming multiplicity |
| StellarProperties.NewSignaturesConcat | src/lib/stellar.ts:89-91 | the filter distributes over concatenation, so input order is kept |
| StellarProperties.NewSignaturesDistinct | src/lib/stellar.ts:89-91 | a duplicate-free batch yields duplicate-free new signatures |
| Stellar.Collate | src/lib/stellar.ts:76-98 | the previous list is a prefix of the result; the appended part holds each incoming signature not previously present exactly as often as the batch does, in batch order (the filtered batch), and nothing else; a batch already present changes nothing |
| StellarProperties.CollateEmptyBatch | src/lib/stellar.ts:88-96 | collating no signatures changes nothing |
| StellarProperties.CollateIdempotent | src/lib/stellar.ts:88-96 | collating the same batch twice equals collating it once |
| StellarProperties.CollateKeepsBatchDuplicates | src/lib/stellar.ts:88-95 | a new signature given twice in one batch is appended twice |
| StellarProperties.CollateDistinct | src/lib/stellar.ts:86-96 | collating duplicate-free lists gives a duplicate-free list |
| Submit.NetworkOf | src/endpoints/submit.ts:46 | a URI without a (non-empty) passphrase means the public network |
| Submit.HorizonFor | src/lib/stellar.ts:10-19 | a server is found exactly for the public and the test network |
| Submit.StripUrlScheme | src/endpoints/submit.ts:59 | a callback starting with `url:` loses exactly that prefix; any other callback is unchanged |
| SubmitProperties.StripUrlSchemeOnce | src/endpoints/submit.ts:59 | only one leading `url:` is removed |
| Submit.FindSignerRow | src/endpoints/submit.ts:51 | absent exactly when no row has the account id; otherwise the first such row |
| Submit.AttachedSignatures | src/endpoints/submit.ts:50-56 | exactly the stored signatures whose first signer row exists with positive weight, each as often as stored |
| SubmitProperties.AttachedSignaturesConcat | src/endpoints/submit.ts:50-56 | attaching distributes over concatenation, so stored order is kept |
| SubmitProperties.FirstSignerRowDecides | src/endpoints/submit.ts:51-53 | a weight-0 first row drops the signature even when a later row has weight 2 |
| Submit.Recipients | src/endpoints/submit.ts:38-39 | the notification list has no duplicates and holds exactly the signer account ids |
| SubmitProperties.RecipientsInFirstOccurrenceOrder | src/endpoints/submit.ts:22-39 | the recipients are listed in the order their account ids first appear among the signer rows |
| Submit.EndpointName | src/endpoints/submit.ts:104 | the rejection names the raw callback when there is one, otherwise "horizon" |
| Submit.PersistedFor | src/endpoints/submit.ts:100-107 | `submitted` is persisted exactly for codes below 400; otherwise `failed` naming the endpoint and the code |
| Submit.Step | src/endpoints/submit.ts:24-124 | 404 exactly for an unknown hash; 400 exactly for an insufficiently signed request; an unknown network fails before submission; otherwise the response is returned or the transport error rethrown, with the stored envelope as the payload, the persisted status, the attached signatures and the deduplicated recipients as above; after a response the notification says `submitted`, after a transport error it carries the loaded status |
| SubmitProperties.EarlyExitsIgnoreEverythingElse | src/endpoints/submit.ts:25-36 | 404 and 400 exits do not depend on any later input, so nothing is submitted or persisted |
| SubmitProperties.SubmissionPrecedesOutcome | src/endpoints/submit.ts:58-98 | the submission and the recipients do not depend on what the remote answers |
| SubmitProperties.TargetChoice | src/endpoints/submit.ts:58-78 | with a callback the target is the callback without `url:`; otherwise the Horizon server of the request's network |
| SubmitProperties.UnknownNetworkPrecedesCallback | src/endpoints/submit.ts:46-47 | an unknown passphrase fails the call even when a callback is present |
| SubmitProperties.RejectionPersistsFailedButNotifiesSubmitted | src/endpoints/submit.ts:100-113 | a code of 400 or more persists `failed` naming the endpoint and code, while the notification says `submitted` |
| SubmitProperties.TransportFailureNotifiesLoadedStatus | src/endpoints/submit.ts:116-123 | a transport error persists `failed` with that error, notifies with the loaded status, and is rethrown |

## Left out

- HTTP routing and the error middleware (`src/app.ts`): framework plumbing. `Step` returns the HTTP error it would throw.
- Environment parsing and the Horizon client singletons (`src/config.ts`): the two server URLs are the input `HorizonServers`.
- XDR envelope encoding and decoding, strkey decoding, hint derivation and ed25519 verification are left out. These belong to the Stellar SDK. The key's hint is the function parameter `keyHint`, and `None` stands for an invalid key.
- Stellar.Collate: the returned transaction is rebuilt from the base64 envelope with `network` as its passphrase, which decides its hash; the model does not record a transaction's network, so it does not state that the passphrase changes.
- Submit.Step: the URI parser is the parameter `parse`. The model does not cover a malformed stored URI or envelope, or `addSignature` rejecting a stored signature. These are SDK failures.
- Submit.Step: the Horizon submission URL is kept as the server URL. Resolving `/transactions` against it is URL parsing.
- Submit.PersistedFor: the rejection message is kept as its parts (endpoint and status code), not as the rendered sentence.
- The HTTP POST, its 15-second timeout and the 1 MiB response cap are left out. A timeout or an over-long body is one of the `TransportError` outcomes.
- Database reads and writes, serialization and notification delivery are left out. These are I/O. A failure of one of them inside the `try` block would re-enter the failure path, and the model does not cover that.
- `hasSufficientSignatures` is not part of this model. Neither is the collate endpoint with its pending-only rule and pending-to-ready transition. Their source is not among the modelled files. The request's sufficiency is the boolean input `sufficient`.
- The concurrent race on the pending-to-ready transition is left out. It is a concurrency concern of the store.
- Thresholds and weights are unbounded naturals. The network's 0 to 255 range plays no role in any comparison modelled here.
