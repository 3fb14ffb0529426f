/** Threshold policy evaluation: which of an account's thresholds the
    signatures on a transaction must reach. */
module Threshold {
  import opened Results
  import opened Ledger

  datatype Level = Low | Med | High

  /** The fixed classification of operation types. Types the table does not
      list, including every type added to the network after it was written,
      are treated as `High`. */
  const ThresholdMap: map<string, Level> := map[
    "createAccount" := Med,
    "payment" := Med,
    "pathPaymentStrictReceive" := Med,
    "pathPaymentStrictSend" := Med,
    "manageSellOffer" := High,
    "manageBuyOffer" := High,
    "createPassiveSellOffer" := High,
    "setOptions" := High,
    "changeTrust" := Med,
    "allowTrust" := Low,
    "accountMerge" := High,
    "inflation" := Low,
    "manageData" := Med,
    "bumpSequence" := Low,
    "createClaimableBalance" := Med,
    "claimClaimableBalance" := Med,
    "beginSponsoringFutureReserves" := Low,
    "endSponsoringFutureReserves" := Low,
    "revokeSponsorship" := High
  ]

  /** The operation types the table explicitly classifies as low and medium. */
  const LowKinds: set<string> := {
    "allowTrust", "inflation", "bumpSequence",
    "beginSponsoringFutureReserves", "endSponsoringFutureReserves"
  }
  const MedKinds: set<string> := {
    "createAccount", "payment", "pathPaymentStrictReceive", "pathPaymentStrictSend",
    "changeTrust", "manageData", "createClaimableBalance", "claimClaimableBalance"
  }

  /** Numeric rank of a level (`thresholdValues`): low, med and high ranked
      1, 2 and 3. */
  function Value(level: Level): (v: nat)
    ensures 1 <= v <= 3
    ensures v == 1 <==> level == Low
    ensures v == 3 <==> level == High
  {
    match level
    case Low => 1
    case Med => 2
    case High => 3
  }

  /** Level whose rank is `n`; any other number falls back to `High`
      (`reverseThresholdValues[n] || 'high'`). */
  function LevelOfValue(n: int): (level: Level)
    ensures 1 <= n <= 3 ==> Value(level) == n
    ensures !(1 <= n <= 3) ==> level == High
  {
    if n == 1 then Low else if n == 2 then Med else High
  }

  /** `LevelOfValue` reads back every rank `Value` hands out. */
  lemma ValueRoundTrip(level: Level)
    ensures LevelOfValue(Value(level)) == level
  {
  }

  predicate AtMost(a: Level, b: Level) {
    Value(a) <= Value(b)
  }

  /** Level of one operation type: low only for the five explicitly low types,
      medium only for the eight explicitly medium types, high otherwise. */
  function LevelOf(kind: string): (level: Level)
    ensures level == Low <==> kind in LowKinds
    ensures level == Med <==> kind in MedKinds
    ensures level == High <==> kind !in LowKinds + MedKinds
  {
    if kind in ThresholdMap then ThresholdMap[kind] else High
  }

  /** The running maximum of the loop in `getRequiredThreshold`, starting at 0. */
  function MaxValue(ops: seq<Operation>): (m: nat)
    ensures ops == [] <==> m == 0
    ensures forall i | 0 <= i < |ops| :: Value(LevelOf(ops[i].kind)) <= m
    ensures ops != [] ==> exists i | 0 <= i < |ops| :: Value(LevelOf(ops[i].kind)) == m
  {
    if |ops| == 0 then 0
    else
      var m := MaxValue(ops[..|ops| - 1]);
      var v := Value(LevelOf(ops[|ops| - 1].kind));
      if m < v then v else m
  }

  /** The level a list of operations requires: the highest level among them,
      and `High` when there are none. */
  function RequiredLevel(ops: seq<Operation>): (level: Level)
    ensures ops == [] ==> level == High
    ensures forall i | 0 <= i < |ops| :: AtMost(LevelOf(ops[i].kind), level)
    ensures ops != [] ==> exists i | 0 <= i < |ops| :: LevelOf(ops[i].kind) == level
  {
    LevelOfValue(MaxValue(ops))
  }

  /** The account's threshold for a level (`getAccountThreshold`): the
      thresholds listed low, med, high, indexed by the level's rank. */
  function AccountThreshold(account: Account, level: Level): (t: nat)
    ensures t == [account.thresholds.low, account.thresholds.med, account.thresholds.high][Value(level) - 1]
  {
    match level
    case Low => account.thresholds.low
    case Med => account.thresholds.med
    case High => account.thresholds.high
  }

  /** An operation counts against an account when it names that account as its
      source, or names no source at all. */
  predicate AppliesTo(op: Operation, id: AccountId) {
    !Truthy(op.source) || op.source == Some(id)
  }

  /** The operations that count against account `id`, in transaction order. */
  function OperationsOf(ops: seq<Operation>, id: AccountId): (r: seq<Operation>)
    ensures forall op | op in r :: op in ops && AppliesTo(op, id)
    ensures forall op | op in ops && AppliesTo(op, id) :: op in r
  {
    if |ops| == 0 then []
    else
      var rest := OperationsOf(ops[1..], id);
      if AppliesTo(ops[0], id) then [ops[0]] + rest else rest
  }

  /** Operation `i` counts against account `id`, and no operation counting
      against `id` has a higher level. */
  predicate HighestApplying(ops: seq<Operation>, id: AccountId, i: int) {
    && 0 <= i < |ops| && AppliesTo(ops[i], id)
    && forall j | 0 <= j < |ops| && AppliesTo(ops[j], id) :: AtMost(LevelOf(ops[j].kind), LevelOf(ops[i].kind))
  }

  /** When some operation counts against `id`, one of highest level attains the
      level its filtered list requires. */
  lemma HighestApplyingAttains(ops: seq<Operation>, id: AccountId)
    requires exists i | 0 <= i < |ops| :: AppliesTo(ops[i], id)
    ensures exists i :: HighestApplying(ops, id, i) && LevelOf(ops[i].kind) == RequiredLevel(OperationsOf(ops, id))
  {
    var sub := OperationsOf(ops, id);
    var i0 :| 0 <= i0 < |ops| && AppliesTo(ops[i0], id);
    assert ops[i0] in sub;
    var k :| 0 <= k < |sub| && LevelOf(sub[k].kind) == RequiredLevel(sub);
    assert sub[k] in ops;
    var i :| 0 <= i < |ops| && ops[i] == sub[k];
    forall j | 0 <= j < |ops| && AppliesTo(ops[j], id)
      ensures AtMost(LevelOf(ops[j].kind), LevelOf(ops[i].kind))
    {
      assert ops[j] in sub;
      var m :| 0 <= m < |sub| && sub[m] == ops[j];
      assert AtMost(LevelOf(sub[m].kind), RequiredLevel(sub));
    }
    assert HighestApplying(ops, id, i);
  }

  /** The numeric threshold the signatures on `tx` must reach for `account`
      (`getAccountTransactionThreshold`): the account's threshold at the
      highest level among the operations counting against it, and its high
      threshold when none does. */
  function AccountTransactionThreshold(account: Account, tx: Transaction): (t: nat)
    ensures t == account.thresholds.low || t == account.thresholds.med || t == account.thresholds.high
    ensures (forall i | 0 <= i < |tx.operations| :: !AppliesTo(tx.operations[i], account.id))
            ==> t == account.thresholds.high
    ensures (exists i | 0 <= i < |tx.operations| :: AppliesTo(tx.operations[i], account.id))
            ==> exists i :: HighestApplying(tx.operations, account.id, i)
                  && t == AccountThreshold(account, LevelOf(tx.operations[i].kind))
  {
    var ops := OperationsOf(tx.operations, account.id);
    assert ops != [] ==> ops[0] in tx.operations;
    if exists i | 0 <= i < |tx.operations| :: AppliesTo(tx.operations[i], account.id) then
      HighestApplyingAttains(tx.operations, account.id);
      AccountThreshold(account, RequiredLevel(ops))
    else
      AccountThreshold(account, RequiredLevel(ops))
  }
}

module ThresholdProperties {
  import opened Results
  import opened Ledger
  import opened Threshold

  /** Adding operations never lowers the required level, as long as the
      smaller list is not empty (an empty list already requires `High`). */
  lemma RequiredLevelMonotone(ops: seq<Operation>, more: seq<Operation>)
    requires ops != []
    requires forall op | op in ops :: op in more
    ensures AtMost(RequiredLevel(ops), RequiredLevel(more))
  {
    var i :| 0 <= i < |ops| && LevelOf(ops[i].kind) == RequiredLevel(ops);
    assert ops[i] in more;
    var j :| 0 <= j < |more| && more[j] == ops[i];
  }

  /** Appending one operation to a non-empty list never lowers the level. */
  lemma AppendNeverLowers(ops: seq<Operation>, op: Operation)
    requires ops != []
    ensures AtMost(RequiredLevel(ops), RequiredLevel(ops + [op]))
  {
  }

  /** The required level depends only on which operations occur: neither their
      order nor their repetition matters. */
  lemma RequiredLevelOrderIndependent(ops: seq<Operation>, ops': seq<Operation>)
    requires forall op | op in ops :: op in ops'
    requires forall op | op in ops' :: op in ops
    ensures RequiredLevel(ops) == RequiredLevel(ops')
  {
    if ops' != [] {
      assert ops'[0] in ops;
    }
    if ops != [] {
      assert ops[0] in ops';
      RequiredLevelMonotone(ops, ops');
      RequiredLevelMonotone(ops', ops);
    }
  }

  /** Going from no operations to one can lower the level: the empty list
      fails safe to `High`, a single payment requires only `Med`. */
  lemma FirstOperationCanLowerLevel()
    ensures RequiredLevel([]) == High
    ensures RequiredLevel([Operation("payment", None)]) == Med
  {
  }

  /** With the usual ordering of thresholds, a higher level never yields a
      smaller threshold. */
  lemma AccountThresholdMonotone(account: Account, a: Level, b: Level)
    requires account.thresholds.low <= account.thresholds.med <= account.thresholds.high
    requires AtMost(a, b)
    ensures AccountThreshold(account, a) <= AccountThreshold(account, b)
  {
  }

  /** Only operations that apply to the account influence its threshold:
      two transactions that agree on those operations (in any order) give the
      same threshold, whatever other operations they carry. */
  lemma ThresholdIgnoresOtherAccounts(account: Account, tx: Transaction, tx': Transaction)
    requires forall op | op in tx.operations && AppliesTo(op, account.id) :: op in tx'.operations
    requires forall op | op in tx'.operations && AppliesTo(op, account.id) :: op in tx.operations
    ensures AccountTransactionThreshold(account, tx) == AccountTransactionThreshold(account, tx')
  {
    RequiredLevelOrderIndependent(
      OperationsOf(tx.operations, account.id), OperationsOf(tx'.operations, account.id));
  }

  /** Operations without a source count against every account evaluated, not
      only the transaction's root account: here a source-less payment raises the
      threshold of a co-source account `B`, whose own operation is low. */
  lemma UnsourcedOperationsCountForEveryAccount()
    ensures
      var b := Account("B", Thresholds(1, 2, 3), []);
      var tx := Transaction("A", [Operation("payment", None), Operation("bumpSequence", Some("B"))], []);
      var own := Transaction("A", [Operation("bumpSequence", Some("B"))], []);
      AccountTransactionThreshold(b, own) == 1 && AccountTransactionThreshold(b, tx) == 2
  {
  }
}
