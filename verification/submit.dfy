/** The submission endpoint as one pure decision step. Every database query,
    the parsing of the stored URI, the sufficiency verdict and the outcome of the
    HTTP POST are inputs; what the endpoint would persist, send, notify, return
    or throw is the output. */
module Submit {
  import opened Results
  import opened Sequences
  import opened Ledger

  /** Lifecycle states of a signature request. */
  datatype Status = Pending | Ready | Submitted | Failed | Expired

  /** The stored signature request: its id, content hash, the stored
      `web+stellar:tx` URI it was created from, and its status. */
  datatype SignatureRequest = SignatureRequest(id: string, hash: string, sourceReq: string, status: Status)

  /** A stored signature row: the signing account and the base64 signature. */
  datatype StoredSignature = StoredSignature(signerAccountId: AccountId, signature: string)

  /** A stored signer row: an account id and its key weight on one source account. */
  datatype SignerRow = SignerRow(accountId: AccountId, keyWeight: nat)

  /** The fields of the parsed transaction URI the endpoint reads. */
  datatype TransactionUri = TransactionUri(xdr: string, networkPassphrase: Option<string>, callback: Option<string>)

  /** The configured Horizon server URLs of the two supported networks. */
  datatype HorizonServers = HorizonServers(pubnet: string, testnet: string)

  /** What the remote side did with the POST: answered with a status code (every
      code is accepted by the client), or failed at the transport level. */
  datatype RemoteOutcome = Responded(statusCode: int) | TransportError(error: string)

  /** Where the envelope is sent. */
  datatype Target = Callback(url: string) | HorizonTransactions(serverUrl: string)

  /** Why a request was marked failed: the endpoint (the raw callback or
      "horizon") answered with an error code, or the POST itself failed. */
  datatype FailureReason = Rejected(endpoint: string, statusCode: int) | Transport(error: string)

  /** The status written to the store. */
  datatype Persisted = PersistedSubmitted | PersistedFailed(reason: FailureReason)

  /** The notification sent to the signers: the status of the serialized
      request and the recipients. */
  datatype Notification = Notification(status: Status, recipients: seq<AccountId>)

  /** The POST the endpoint makes: network, unsigned payload, the signatures
      added to it, and the target. */
  datatype Submission = Submission(network: string, xdr: string, attached: seq<StoredSignature>, target: Target)

  datatype Outcome =
    | HttpError(code: int, message: string)
      // thrown before any submission; the middleware turns it into a response
    | UnknownNetwork(passphrase: string)
      // thrown by the Horizon lookup before any submission
    | Forwarded(submission: Submission, persisted: Persisted, notification: Notification, responseStatus: int)
      // the remote answered; its response is returned
    | ForwardFailed(submission: Submission, persisted: Persisted, notification: Notification, error: string)
      // the POST failed; the error is rethrown after persisting and notifying

  const PublicPassphrase: string := "Public Global Stellar Network ; September 2015"
  const TestnetPassphrase: string := "Test SDF Network ; September 2015"
  const UrlScheme: string := "url:"
  const NotSufficientlySigned: string := "Transaction is not yet sufficiently signed"
  const NotFoundPrefix: string := "Transaction not found: "

  /** The network a URI names, the public network when it names none. */
  function NetworkOf(uri: TransactionUri): (network: string)
    ensures !Truthy(uri.networkPassphrase) ==> network == PublicPassphrase
    ensures Truthy(uri.networkPassphrase) ==> network == uri.networkPassphrase.value
  {
    if Truthy(uri.networkPassphrase) then uri.networkPassphrase.value else PublicPassphrase
  }

  /** The Horizon server of a network; only the public and test networks are known. */
  function HorizonFor(network: string, servers: HorizonServers): (url: Option<string>)
    ensures url.Some? <==> network == PublicPassphrase || network == TestnetPassphrase
  {
    if network == PublicPassphrase then Some(servers.pubnet)
    else if network == TestnetPassphrase then Some(servers.testnet)
    else None
  }

  predicate HasUrlScheme(s: string) {
    |s| >= |UrlScheme| && s[..|UrlScheme|] == UrlScheme
  }

  /** The callback with one leading `url:` removed (`replace(/^url:/, "")`). */
  function StripUrlScheme(callback: string): (url: string)
    ensures HasUrlScheme(callback) ==> UrlScheme + url == callback
    ensures !HasUrlScheme(callback) ==> url == callback
  {
    if HasUrlScheme(callback) then callback[|UrlScheme|..] else callback
  }

  /** The first signer row for an account id (`signers.find(...)`). */
  function FindSignerRow(signers: seq<SignerRow>, id: AccountId): (r: Option<SignerRow>)
    ensures r.None? <==> forall j | 0 <= j < |signers| :: signers[j].accountId != id
    ensures r.Some? ==> exists j | 0 <= j < |signers| ::
      signers[j] == r.value && r.value.accountId == id && forall k | 0 <= k < j :: signers[k].accountId != id
  {
    if |signers| == 0 then None
    else if signers[0].accountId == id then Some(signers[0])
    else
      var r := FindSignerRow(signers[1..], id);
      assert forall j | 1 <= j < |signers| :: signers[j] == signers[1..][j - 1];
      r
  }

  /** A stored signature is added to the envelope when the first signer row of
      its account exists and has positive weight. */
  predicate Counts(signature: StoredSignature, signers: seq<SignerRow>) {
    var row := FindSignerRow(signers, signature.signerAccountId);
    row.Some? && row.value.keyWeight > 0
  }

  /** The stored signatures added to the envelope, in stored order. */
  function AttachedSignatures(signatures: seq<StoredSignature>, signers: seq<SignerRow>): (r: seq<StoredSignature>)
    ensures forall s | s in r :: s in signatures && Counts(s, signers)
    ensures forall s :: multiset(r)[s] == if Counts(s, signers) then multiset(signatures)[s] else 0
  {
    if |signatures| == 0 then []
    else
      var rest := AttachedSignatures(signatures[1..], signers);
      assert signatures == [signatures[0]] + signatures[1..];
      if Counts(signatures[0], signers) then [signatures[0]] + rest else rest
  }

  /** Signer account ids without duplicates, for the notification. */
  function Recipients(signers: seq<SignerRow>): (r: seq<AccountId>)
    ensures NoDuplicates(r)
    ensures forall id | id in r :: exists j | 0 <= j < |signers| :: signers[j].accountId == id
    ensures forall j | 0 <= j < |signers| :: signers[j].accountId in r
  {
    var ids := seq(|signers|, j requires 0 <= j < |signers| => signers[j].accountId);
    assert forall j | 0 <= j < |signers| :: ids[j] == signers[j].accountId;
    Dedupe(ids)
  }

  /** The endpoint named in a rejection message: the raw callback, or "horizon". */
  function EndpointName(uri: TransactionUri): (name: string)
    ensures Truthy(uri.callback) ==> name == uri.callback.value
    ensures !Truthy(uri.callback) ==> name == "horizon"
  {
    if Truthy(uri.callback) then uri.callback.value else "horizon"
  }

  /** The status persisted once the remote has answered. */
  function PersistedFor(uri: TransactionUri, statusCode: int): (p: Persisted)
    ensures p == PersistedSubmitted <==> statusCode < 400
    ensures p.PersistedFailed? ==> p.reason == Rejected(EndpointName(uri), statusCode)
  {
    if statusCode < 400 then PersistedSubmitted
    else PersistedFailed(Rejected(EndpointName(uri), statusCode))
  }

  /** One call of `submitTransaction(hash)`.
      `request` is the row found for the hash, `sufficient` the store's verdict
      on its signatures, `parse` the URI parser, and `remote` what the POST
      would yield. */
  function Step(
    hash: string,
    request: Option<SignatureRequest>,
    sufficient: bool,
    signatures: seq<StoredSignature>,
    signers: seq<SignerRow>,
    parse: string -> TransactionUri,
    servers: HorizonServers,
    remote: RemoteOutcome
  ): (r: Outcome)
    ensures request.None? <==> r.HttpError? && r.code == 404
    ensures request.None? ==> r.message == NotFoundPrefix + hash
    ensures request.Some? && !sufficient <==> r.HttpError? && r.code == 400
    ensures r.HttpError? ==> r.code == 404 || r.code == 400
    ensures r.UnknownNetwork? <==>
      request.Some? && sufficient && HorizonFor(NetworkOf(parse(request.value.sourceReq)), servers).None?
    ensures r.Forwarded? <==> request.Some? && sufficient && !r.UnknownNetwork? && remote.Responded?
    ensures r.ForwardFailed? <==> request.Some? && sufficient && !r.UnknownNetwork? && remote.TransportError?
    ensures r.Forwarded? ==>
      r.responseStatus == remote.statusCode && (r.persisted == PersistedSubmitted <==> remote.statusCode < 400)
    ensures r.ForwardFailed? ==> r.error == remote.error && r.persisted == PersistedFailed(Transport(remote.error))
    ensures (r.Forwarded? || r.ForwardFailed?) ==>
      && r.submission.network == NetworkOf(parse(request.value.sourceReq))
      && r.submission.attached == AttachedSignatures(signatures, signers)
      && r.notification.recipients == Recipients(signers)
      && r.submission.xdr == parse(request.value.sourceReq).xdr
    ensures r.Forwarded? ==> r.notification.status == Submitted
    ensures r.ForwardFailed? ==> r.notification.status == request.value.status
  {
    match request
    case None => HttpError(404, NotFoundPrefix + hash)
    case Some(req) =>
      if !sufficient then HttpError(400, NotSufficientlySigned)
      else
        var recipients := Recipients(signers);
        var uri := parse(req.sourceReq);
        var network := NetworkOf(uri);
        match HorizonFor(network, servers)
        case None => UnknownNetwork(network)
        case Some(horizon) =>
          var attached := AttachedSignatures(signatures, signers);
          var target :=
            if Truthy(uri.callback) then Callback(StripUrlScheme(uri.callback.value))
            else HorizonTransactions(horizon);
          var submission := Submission(network, uri.xdr, attached, target);
          match remote
          case Responded(code) =>
            // the in-memory request is marked submitted whatever was persisted
            Forwarded(submission, PersistedFor(uri, code), Notification(Submitted, recipients), code)
          case TransportError(e) =>
            ForwardFailed(submission, PersistedFailed(Transport(e)), Notification(req.status, recipients), e)
  }
}

module SubmitProperties {
  import opened Results
  import opened Sequences
  import opened Ledger
  import opened Submit

  /** An unknown hash and an insufficiently signed request end the call before
      anything else is looked at: no other input changes the outcome, so no
      submission is made and no status is written. */
  lemma EarlyExitsIgnoreEverythingElse(
    hash: string, request: Option<SignatureRequest>, sufficient: bool,
    signatures: seq<StoredSignature>, signatures': seq<StoredSignature>,
    signers: seq<SignerRow>, signers': seq<SignerRow>,
    parse: string -> TransactionUri, parse': string -> TransactionUri,
    servers: HorizonServers, servers': HorizonServers,
    remote: RemoteOutcome, remote': RemoteOutcome)
    requires request.None? || !sufficient
    ensures Step(hash, request, sufficient, signatures, signers, parse, servers, remote)
         == Step(hash, request, sufficient, signatures', signers', parse', servers', remote')
    ensures request.Some? ==>
      Step(hash, request, sufficient, signatures, signers, parse, servers, remote) == HttpError(400, NotSufficientlySigned)
  {
  }

  /** What is sent, and to whom the signers are notified, is fixed before the
      remote answers: two outcomes of the POST differ only in what is persisted,
      returned or thrown. */
  lemma SubmissionPrecedesOutcome(
    hash: string, request: Option<SignatureRequest>, sufficient: bool,
    signatures: seq<StoredSignature>, signers: seq<SignerRow>,
    parse: string -> TransactionUri, servers: HorizonServers,
    remote: RemoteOutcome, remote': RemoteOutcome)
    requires Step(hash, request, sufficient, signatures, signers, parse, servers, remote).Forwarded?
          || Step(hash, request, sufficient, signatures, signers, parse, servers, remote).ForwardFailed?
    ensures var r := Step(hash, request, sufficient, signatures, signers, parse, servers, remote);
      var r' := Step(hash, request, sufficient, signatures, signers, parse, servers, remote');
      && (r'.Forwarded? || r'.ForwardFailed?)
      && r'.submission == r.submission
      && r'.notification.recipients == r.notification.recipients
  {
  }

  /** The target: the callback without its `url:` scheme when the URI has a
      callback, otherwise the Horizon server of the request's network. */
  lemma TargetChoice(
    hash: string, request: Option<SignatureRequest>, sufficient: bool,
    signatures: seq<StoredSignature>, signers: seq<SignerRow>,
    parse: string -> TransactionUri, servers: HorizonServers, remote: RemoteOutcome)
    requires var r := Step(hash, request, sufficient, signatures, signers, parse, servers, remote);
      r.Forwarded? || r.ForwardFailed?
    ensures var r := Step(hash, request, sufficient, signatures, signers, parse, servers, remote);
      var uri := parse(request.value.sourceReq);
      && (Truthy(uri.callback) ==> r.submission.target == Callback(StripUrlScheme(uri.callback.value)))
      && (!Truthy(uri.callback) && NetworkOf(uri) == PublicPassphrase ==>
            r.submission.target == HorizonTransactions(servers.pubnet))
      && (!Truthy(uri.callback) && NetworkOf(uri) == TestnetPassphrase ==>
            r.submission.target == HorizonTransactions(servers.testnet))
  {
  }

  /** The Horizon lookup runs before the callback is consulted, so a request
      on an unknown network fails even when it carries a callback. */
  lemma UnknownNetworkPrecedesCallback(servers: HorizonServers, remote: RemoteOutcome)
    ensures
      var req := SignatureRequest("id", "h", "web+stellar:tx", Ready);
      var uri := TransactionUri("AAAA", Some("Private Network"), Some("url:https://example.com/tx"));
      Step("h", Some(req), true, [], [], _ => uri, servers, remote) == UnknownNetwork("Private Network")
  {
  }

  /** A remote answer of 400 or more is persisted as `failed`, yet the request
      serialized for the notification says `submitted`: persisted and notified
      status disagree. */
  lemma RejectionPersistsFailedButNotifiesSubmitted(
    hash: string, req: SignatureRequest,
    signatures: seq<StoredSignature>, signers: seq<SignerRow>,
    parse: string -> TransactionUri, servers: HorizonServers, code: int)
    requires code >= 400
    requires HorizonFor(NetworkOf(parse(req.sourceReq)), servers).Some?
    ensures var r := Step(hash, Some(req), true, signatures, signers, parse, servers, Responded(code));
      && r.Forwarded?
      && r.persisted == PersistedFailed(Rejected(EndpointName(parse(req.sourceReq)), code))
      && r.notification.status == Submitted
  {
  }

  /** After a transport failure the request is persisted as failed and the
      notification carries the status the request had when it was loaded. */
  lemma TransportFailureNotifiesLoadedStatus(
    hash: string, req: SignatureRequest,
    signatures: seq<StoredSignature>, signers: seq<SignerRow>,
    parse: string -> TransactionUri, servers: HorizonServers, error: string)
    requires HorizonFor(NetworkOf(parse(req.sourceReq)), servers).Some?
    ensures var r := Step(hash, Some(req), true, signatures, signers, parse, servers, TransportError(error));
      && r.ForwardFailed?
      && r.persisted == PersistedFailed(Transport(error))
      && r.notification.status == req.status
      && r.error == error
  {
  }

  /** Exactly one leading `url:` is removed. */
  lemma StripUrlSchemeOnce(url: string)
    ensures StripUrlScheme(UrlScheme + url) == url
    ensures StripUrlScheme(UrlScheme + UrlScheme + url) == UrlScheme + url
  {
  }

  /** Attaching distributes over concatenation of the stored list, so the
      attached signatures keep their stored order. */
  lemma {:induction false} AttachedSignaturesConcat(a: seq<StoredSignature>, b: seq<StoredSignature>, signers: seq<SignerRow>)
    ensures AttachedSignatures(a + b, signers) == AttachedSignatures(a, signers) + AttachedSignatures(b, signers)
  {
    if |a| == 0 {
      assert a + b == b;
    } else {
      assert (a + b)[0] == a[0] && (a + b)[1..] == a[1..] + b;
      AttachedSignaturesConcat(a[1..], b, signers);
    }
  }

  /** Only the first signer row of an account decides: a key listed with
      weight 0 on one source account and weight 2 on a later one has its
      signature left off the envelope. */
  lemma FirstSignerRowDecides()
    ensures
      var signers := [SignerRow("K", 0), SignerRow("K", 2)];
      AttachedSignatures([StoredSignature("K", "sig")], signers) == []
  {
  }

  /** Recipients are listed in the order their account ids first appear among
      the signer rows. */
  lemma RecipientsInFirstOccurrenceOrder(signers: seq<SignerRow>)
    ensures var ids := seq(|signers|, j requires 0 <= j < |signers| => signers[j].accountId);
      forall i, k | 0 <= i < k < |Recipients(signers)| ::
        FirstIndex(ids, Recipients(signers)[i]) < FirstIndex(ids, Recipients(signers)[k])
  {
    DedupeKeepsFirstOccurrenceOrder(seq(|signers|, j requires 0 <= j < |signers| => signers[j].accountId));
  }
}
