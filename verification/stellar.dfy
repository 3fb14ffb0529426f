/** Signature set logic: which accounts and keys a transaction involves, the
    cheap hint pre-match of a signature against a key, whether one key alone
    authorizes the transaction, and the merging of signature lists. */
module Stellar {
  import opened Results
  import opened Sequences
  import opened Xdr
  import opened Ledger
  import opened Threshold

  /** Failures the library reports by throwing. */
  datatype Error =
    | InvalidPublicKey(key: AccountId)   // the key is not a valid strkey
    | NoSignerRecord(key: AccountId)     // invariant violation: a source account lacks the key

  /** The explicit operation sources in operation order, absent and empty
      sources skipped. */
  function OperationSources(ops: seq<Operation>): (r: seq<AccountId>)
    ensures forall a | a in r :: a != "" && exists i | 0 <= i < |ops| :: ops[i].source == Some(a)
    ensures forall i | 0 <= i < |ops| && Truthy(ops[i].source) :: ops[i].source.value in r
  {
    if |ops| == 0 then []
    else
      var rest := OperationSources(ops[1..]);
      assert forall a | a in rest :: exists i | 0 <= i < |ops| :: ops[i].source == Some(a) by {
        forall a | a in rest ensures exists i | 0 <= i < |ops| :: ops[i].source == Some(a) {
          var i :| 0 <= i < |ops[1..]| && ops[1..][i].source == Some(a);
          assert ops[i + 1].source == Some(a);
        }
      }
      assert forall i | 1 <= i < |ops| :: ops[i] == ops[1..][i - 1];
      if Truthy(ops[0].source) then [ops[0].source.value] + rest else rest
  }

  /** Every account whose authorization the transaction needs, without
      duplicates: the root source first, then the operation sources in order of
      first appearance (`getAllSources`). */
  function AllSources(tx: Transaction): (r: seq<AccountId>)
    ensures |r| > 0 && r[0] == tx.source
    ensures NoDuplicates(r)
    ensures forall a | a in r ::
      a == tx.source || (a != "" && exists i | 0 <= i < |tx.operations| :: tx.operations[i].source == Some(a))
    ensures forall i | 0 <= i < |tx.operations| && Truthy(tx.operations[i].source) ::
      tx.operations[i].source.value in r
  {
    var all := [tx.source] + OperationSources(tx.operations);
    DedupeKeepsHead(all);
    Dedupe(all)
  }

  /** The account lists `key` among its signers with a positive weight. */
  predicate HasPositiveSigner(account: Account, key: AccountId) {
    exists j | 0 <= j < |account.signers| :: account.signers[j].key == key && account.signers[j].weight > 0
  }

  /** Keys of the signers with positive weight, in list order. */
  function PositiveSignerKeys(signers: seq<AccountSigner>): (r: seq<AccountId>)
    ensures forall k | k in r :: exists j | 0 <= j < |signers| :: signers[j].key == k && signers[j].weight > 0
    ensures forall j | 0 <= j < |signers| && signers[j].weight > 0 :: signers[j].key in r
  {
    if |signers| == 0 then []
    else
      var rest := PositiveSignerKeys(signers[1..]);
      assert forall k | k in rest :: exists j | 0 <= j < |signers| :: signers[j].key == k && signers[j].weight > 0 by {
        forall k | k in rest ensures exists j | 0 <= j < |signers| :: signers[j].key == k && signers[j].weight > 0 {
          var j :| 0 <= j < |signers[1..]| && signers[1..][j].key == k && signers[1..][j].weight > 0;
          assert signers[j + 1] == signers[1..][j];
        }
      }
      assert forall j | 1 <= j < |signers| :: signers[j] == signers[1..][j - 1];
      if signers[0].weight > 0 then [signers[0].key] + rest else rest
  }

  /** Every key that can contribute weight to some source account, without
      duplicates (`getAllSigners`: a reduce that deduplicates after each account). */
  function AllSigners(accounts: seq<Account>): (r: seq<AccountId>)
    ensures NoDuplicates(r)
    ensures forall k | k in r :: exists i | 0 <= i < |accounts| :: HasPositiveSigner(accounts[i], k)
    ensures forall i, k | 0 <= i < |accounts| && HasPositiveSigner(accounts[i], k) :: k in r
  {
    if |accounts| == 0 then []
    else
      var prior := AllSigners(accounts[..|accounts| - 1]);
      var last := accounts[|accounts| - 1];
      var r := Dedupe(prior + PositiveSignerKeys(last.signers));
      assert forall i | 0 <= i < |accounts| - 1 :: accounts[..|accounts| - 1][i] == accounts[i];
      r
  }

  /** All positive-weight keys of all accounts, concatenated in order. */
  function ConcatPositiveKeys(accounts: seq<Account>): seq<AccountId> {
    if |accounts| == 0 then []
    else ConcatPositiveKeys(accounts[..|accounts| - 1]) + PositiveSignerKeys(accounts[|accounts| - 1].signers)
  }

  /** The reduce with a `dedupe` after every account equals one `dedupe` of all
      keys, so the signer list is in order of first appearance across accounts. */
  lemma {:induction false} AllSignersIsDedupeOfAllKeys(accounts: seq<Account>)
    ensures AllSigners(accounts) == Dedupe(ConcatPositiveKeys(accounts))
  {
    if |accounts| > 0 {
      var init := accounts[..|accounts| - 1];
      AllSignersIsDedupeOfAllKeys(init);
      DedupeAbsorbs(ConcatPositiveKeys(init), PositiveSignerKeys(accounts[|accounts| - 1].signers));
    }
  }

  /** Cheap pre-match of a signature against a key (`signatureMatchesPublicKey`):
      `keyHint` stands for decoding the strkey and deriving its hint, and yields
      `None` for a string that is not a public key, where the source throws. */
  function SignatureMatchesPublicKey(
    signature: DecoratedSignature, publicKey: AccountId, keyHint: AccountId -> Option<Hint>
  ): (r: Result<bool, Error>)
    ensures r.Failure? <==> keyHint(publicKey).None?
    ensures r.Failure? ==> r.error == InvalidPublicKey(publicKey)
    ensures r.Success? ==> (r.value <==> signature.hint == keyHint(publicKey).value)
  {
    match keyHint(publicKey)
    case None => Failure(InvalidPublicKey(publicKey))
    case Some(hint) => Success(signature.hint == hint)
  }

  /** The first signer entry for `key` (`signers.find(...)`). */
  function FindSigner(signers: seq<AccountSigner>, key: AccountId): (r: Option<AccountSigner>)
    ensures r.None? <==> forall j | 0 <= j < |signers| :: signers[j].key != key
    ensures r.Some? ==> exists j | 0 <= j < |signers| ::
      signers[j] == r.value && r.value.key == key && forall k | 0 <= k < j :: signers[k].key != key
  {
    if |signers| == 0 then None
    else if signers[0].key == key then Some(signers[0])
    else
      var r := FindSigner(signers[1..], key);
      assert forall j | 1 <= j < |signers| :: signers[j] == signers[1..][j - 1];
      r
  }

  /** The account lists `key` among its signers, with any weight. */
  predicate HasSignerRecord(account: Account, key: AccountId) {
    exists j | 0 <= j < |account.signers| :: account.signers[j].key == key
  }

  /** Weight of the first signer entry for `key` on the account. */
  function SignerWeight(account: Account, key: AccountId): nat
    requires HasSignerRecord(account, key)
  {
    FindSigner(account.signers, key).value.weight
  }

  /** The key's weight alone meets the account's transaction threshold. */
  predicate Verdict(account: Account, tx: Transaction, key: AccountId)
    requires HasSignerRecord(account, key)
  {
    SignerWeight(account, key) >= AccountTransactionThreshold(account, tx)
  }

  /** `r` is what mapping `accounts` yields: the invariant-violation error
      exactly when some account has no entry for the key, and otherwise one
      verdict per account. */
  predicate VerdictsOf(accounts: seq<Account>, tx: Transaction, key: AccountId, r: Result<seq<bool>, Error>) {
    && (r.Failure? <==> exists i | 0 <= i < |accounts| :: !HasSignerRecord(accounts[i], key))
    && (r.Failure? ==> r.error == NoSignerRecord(key))
    && (r.Success? ==> |r.value| == |accounts| && forall i | 0 <= i < |accounts| ::
          HasSignerRecord(accounts[i], key) && r.value[i] == Verdict(accounts[i], tx, key))
  }

  /** The `map` step of `signatureIsSufficient`: one verdict per account, or the
      invariant-violation error at the first account without an entry for the key. */
  function SignerVerdicts(accounts: seq<Account>, tx: Transaction, key: AccountId): (r: Result<seq<bool>, Error>)
    ensures VerdictsOf(accounts, tx, key, r)
  {
    if |accounts| == 0 then Success([])
    else if FindSigner(accounts[0].signers, key).None? then
      assert !HasSignerRecord(accounts[0], key);
      Failure(NoSignerRecord(key))
    else
      var rest := SignerVerdicts(accounts[1..], tx, key);
      var r := if rest.Failure? then rest else Success([Verdict(accounts[0], tx, key)] + rest.value);
      VerdictsExtend(accounts, tx, key, rest, r);
      r
  }

  /** Mapping extends from the tail of `accounts` to the whole list. */
  lemma VerdictsExtend(
    accounts: seq<Account>, tx: Transaction, key: AccountId,
    rest: Result<seq<bool>, Error>, r: Result<seq<bool>, Error>)
    requires |accounts| > 0 && HasSignerRecord(accounts[0], key)
    requires VerdictsOf(accounts[1..], tx, key, rest)
    requires r == if rest.Failure? then rest else Success([Verdict(accounts[0], tx, key)] + rest.value)
    ensures VerdictsOf(accounts, tx, key, r)
  {
    var tail := accounts[1..];
    if rest.Failure? {
      var i :| 0 <= i < |tail| && !HasSignerRecord(tail[i], key);
      assert tail[i] == accounts[i + 1];
    } else {
      forall i | 0 <= i < |accounts|
        ensures HasSignerRecord(accounts[i], key) && r.value[i] == Verdict(accounts[i], tx, key)
      {
        if i > 0 {
          assert accounts[i] == tail[i - 1] && r.value[i] == rest.value[i - 1];
        }
      }
    }
  }

  /** Whether one key's weight alone meets the transaction threshold of every
      source account (`signatureIsSufficient`). Every account is examined before
      any verdict is combined, so a missing signer entry anywhere is reported as
      an error even when another account already fails on weight. */
  function SignatureIsSufficient(accounts: seq<Account>, tx: Transaction, key: AccountId): (r: Result<bool, Error>)
    ensures r.Failure? <==> exists i | 0 <= i < |accounts| :: !HasSignerRecord(accounts[i], key)
    ensures r.Failure? ==> r.error == NoSignerRecord(key)
    ensures r.Success? ==> (r.value <==> forall i | 0 <= i < |accounts| ::
      SignerWeight(accounts[i], key) >= AccountTransactionThreshold(accounts[i], tx))
    ensures accounts == [] ==> r == Success(true)
  {
    match SignerVerdicts(accounts, tx, key)
    case Failure(e) => Failure(e)
    case Success(verdicts) => Success(forall i | 0 <= i < |verdicts| :: verdicts[i])
  }

  /** Byte-equality search of a signature list (`containsSignature`). Byte
      equality of encodings is exactly equality of signatures. */
  function ContainsSignature(haystack: seq<DecoratedSignature>, needle: DecoratedSignature): (r: bool)
    ensures r <==> needle in haystack
  {
    assert forall s :: Encode(s) == Encode(needle) <==> s == needle by {
      forall s ensures Encode(s) == Encode(needle) <==> s == needle {
        EncodeInjective(s, needle);
      }
    }
    exists i | 0 <= i < |haystack| :: Encode(haystack[i]) == Encode(needle)
  }

  /** The incoming signatures not byte-equal to any previous one, in input
      order. Repetitions within the incoming list are kept. */
  function NewSignatures(prev: seq<DecoratedSignature>, additional: seq<DecoratedSignature>): (r: seq<DecoratedSignature>)
    ensures forall s | s in r :: s in additional && s !in prev
    ensures forall s | s in additional && s !in prev :: s in r
    ensures forall s :: multiset(r)[s] == if s in prev then 0 else multiset(additional)[s]
  {
    if |additional| == 0 then []
    else
      var rest := NewSignatures(prev, additional[1..]);
      assert additional == [additional[0]] + additional[1..];
      if !ContainsSignature(prev, additional[0]) then [additional[0]] + rest else rest
  }

  /** The transaction with the previous signatures followed by the new ones
      (`collateTransactionSignatures`). The copy made through the base64
      envelope keeps the source and operations; the network passphrase it
      takes on is not part of this model. */
  function Collate(tx: Transaction, additional: seq<DecoratedSignature>): (r: Transaction)
    ensures r.source == tx.source && r.operations == tx.operations
    ensures |tx.signatures| <= |r.signatures| && r.signatures[..|tx.signatures|] == tx.signatures
    ensures forall s | s in r.signatures[|tx.signatures|..] :: s in additional && s !in tx.signatures
    ensures forall s | s in additional :: s in r.signatures
    ensures (forall s | s in additional :: s in tx.signatures) ==> r == tx
    ensures r.signatures == tx.signatures + NewSignatures(tx.signatures, additional)
    ensures forall s ::
              multiset(r.signatures[|tx.signatures|..])[s] == if s in tx.signatures then 0 else multiset(additional)[s]
  {
    var added := NewSignatures(tx.signatures, additional);
    var r := tx.(signatures := tx.signatures + added);
    assert r.signatures[|tx.signatures|..] == added;
    assert added != [] ==> added[0] in added;
    r
  }
}

module StellarProperties {
  import opened Sequences
  import opened Xdr
  import opened Ledger
  import opened Stellar

  /** Source accounts are listed in order of first appearance: the root
      source, then operation sources as the operations name them. */
  lemma AllSourcesInFirstOccurrenceOrder(tx: Transaction)
    ensures var all := [tx.source] + OperationSources(tx.operations);
      forall i, j | 0 <= i < j < |AllSources(tx)| ::
        FirstIndex(all, AllSources(tx)[i]) < FirstIndex(all, AllSources(tx)[j])
  {
    DedupeKeepsFirstOccurrenceOrder([tx.source] + OperationSources(tx.operations));
  }

  /** Collecting operation sources distributes over concatenation, and one
      operation contributes exactly its truthy source: the sources keep the
      order of the operations naming them. */
  lemma {:induction false} OperationSourcesConcat(a: seq<Operation>, b: seq<Operation>)
    ensures OperationSources(a + b) == OperationSources(a) + OperationSources(b)
    ensures |a| == 1 ==> OperationSources(a) == if Truthy(a[0].source) then [a[0].source.value] else []
  {
    if |a| == 0 {
      assert a + b == b;
    } else {
      assert (a + b)[0] == a[0] && (a + b)[1..] == a[1..] + b;
      OperationSourcesConcat(a[1..], b);
    }
  }

  /** Filtering distributes over concatenation of the incoming list: the new
      signatures keep their input order. */
  lemma {:induction false} NewSignaturesConcat(prev: seq<DecoratedSignature>, a: seq<DecoratedSignature>, b: seq<DecoratedSignature>)
    ensures NewSignatures(prev, a + b) == NewSignatures(prev, a) + NewSignatures(prev, b)
  {
    if |a| == 0 {
      assert a + b == b;
    } else {
      assert (a + b)[0] == a[0] && (a + b)[1..] == a[1..] + b;
      NewSignaturesConcat(prev, a[1..], b);
    }
  }

  /** Collating an empty batch changes nothing. */
  lemma CollateEmptyBatch(tx: Transaction)
    ensures Collate(tx, []) == tx
  {
  }

  /** Collating the same batch twice adds nothing the second time. */
  lemma CollateIdempotent(tx: Transaction, additional: seq<DecoratedSignature>)
    ensures Collate(Collate(tx, additional), additional) == Collate(tx, additional)
  {
  }

  /** A signature repeated inside one incoming batch is appended every time:
      only the previous list is consulted. */
  lemma CollateKeepsBatchDuplicates(tx: Transaction, s: DecoratedSignature)
    requires s !in tx.signatures
    ensures Collate(tx, [s, s]).signatures == tx.signatures + [s, s]
  {
    assert [s, s][1..] == [s];
    assert NewSignatures(tx.signatures, [s]) == [s];
  }

  /** The new signatures of a duplicate-free batch are duplicate-free. */
  lemma {:induction false} NewSignaturesDistinct(prev: seq<DecoratedSignature>, additional: seq<DecoratedSignature>)
    requires NoDuplicates(additional)
    ensures NoDuplicates(NewSignatures(prev, additional))
  {
    if |additional| > 0 {
      var tail := additional[1..];
      assert NoDuplicates(tail) by {
        assert forall i | 0 <= i < |tail| :: tail[i] == additional[i + 1];
      }
      NewSignaturesDistinct(prev, tail);
      assert additional[0] !in tail;
      assert additional[0] !in NewSignatures(prev, tail);
    }
  }

  /** Collating duplicate-free lists yields a duplicate-free list: the
      previous signatures followed by exactly the incoming ones they lack. */
  lemma CollateDistinct(tx: Transaction, additional: seq<DecoratedSignature>)
    requires NoDuplicates(tx.signatures) && NoDuplicates(additional)
    ensures NoDuplicates(Collate(tx, additional).signatures)
  {
    var prev := tx.signatures;
    var added := NewSignatures(prev, additional);
    NewSignaturesDistinct(prev, additional);
    var r := prev + added;
    assert Collate(tx, additional).signatures == r;
    forall i, j | 0 <= i < j < |r| ensures r[i] != r[j] {
      if j >= |prev| {
        assert r[j] == added[j - |prev|];
        if i >= |prev| {
          assert r[i] == added[i - |prev|];
        } else {
          assert r[i] in prev;
        }
      }
    }
  }
}
