/** The ledger entities the authorization engine reads: operations and
    transactions as decoded from their envelope, and account records with
    their thresholds and signer lists as the network reports them. */
module Ledger {
  import opened Results
  import opened Xdr

  /** A public key in its textual (strkey) form. */
  type AccountId = string

  /** One operation of a transaction: its type name (`op.type`) and its
      optional explicit source account. */
  datatype Operation = Operation(kind: string, source: Option<AccountId>)

  /** A decoded transaction: the root source account, its operations and the
      decorated signatures attached so far. */
  datatype Transaction = Transaction(
    source: AccountId,
    operations: seq<Operation>,
    signatures: seq<DecoratedSignature>)

  /** An account's three configured thresholds. */
  datatype Thresholds = Thresholds(low: nat, med: nat, high: nat)

  /** One entry of an account's signer list. */
  datatype AccountSigner = AccountSigner(key: AccountId, weight: nat)

  /** An account as loaded from the network. */
  datatype Account = Account(id: AccountId, thresholds: Thresholds, signers: seq<AccountSigner>)

  /** JavaScript truthiness of an optional string: absent and empty are both false. */
  predicate Truthy(s: Option<string>) {
    s.Some? && s.value != ""
  }
}
