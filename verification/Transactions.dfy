/**
 Transactions on the ledger (src/node/sequential_node.cpp, applyTransactions): what each
 kind must look like, and how a batch moves assets.
 */
module Transactions {
  import opened Machine
  import opened Addresses
  import opened ProtocolAddresses
  import opened Records
  import opened Money

  type HexDigest = s: string | |s| == 32 && (forall i :: 0 <= i < |s| ==> '0' <= s[i] <= '9' || 'a' <= s[i] <= 'f')
    witness seq(32, _ => '0')

  /** Signature verification, and the development signatures of a chain without
      validators. */
  datatype Signatures = Signatures(
    authenticated: Transaction -> bool,
    keyDigest: Bytes -> HexDigest,
    development: Transaction -> Bytes)

  /** The part of the node's state transactions are checked against but do not change. */
  datatype Context = Context(
    validators: seq<Address>, epochs: map<nat, seq<Address>>, epoch: nat, transferFee: nat, integer: nat)

  datatype Accounts = Accounts(money: Money, nonces: map<Address, nat>)

  const FULL_REWARD_DISTRIBUTION := 26488

  // ---------------------------------------------------------------- kinds

  predicate IsTransfer(tx: Transaction) {
    tx.version == 2 && IsSignatureAddress(tx.sender)
  }

  predicate IsReserveLock(tx: Transaction) {
    tx.version == 4 && IsSignatureAddress(tx.sender)
  }

  predicate IsReserveUnlock(tx: Transaction) {
    tx.version == 8 && IsSignatureAddress(tx.sender)
  }

  predicate IsFeeDistribution(tx: Transaction, ctx: Context) {
    tx.version == 3 && tx.sender == FeePoolAddress(ctx.epoch)
  }

  predicate IsRewardDistribution(tx: Transaction) {
    tx.version == 5 && IsRewardPool(tx.sender)
  }

  predicate SignatureOk(sigs: Signatures, ctx: Context, tx: Transaction) {
    if IsFeeDistribution(tx, ctx) || IsRewardDistribution(tx) then tx.publicKey == [] && tx.signature == []
    else if IsSignatureAddress(tx.sender) then
      (tx.version == 2 || tx.version == 4 || tx.version == 8) && sigs.authenticated(tx)
    else
      && ctx.validators == [] && tx.version == 0
      && tx.sender == DEVELOPMENT + sigs.keyDigest(tx.publicKey) && tx.signature == sigs.development(tx)
  }

  // ---------------------------------------------------------------- shapes

  /** Whole micro-units, at least one. */
  function MicroUnits(a: Amount): Option<nat> {
    if a.denominator == 1 && a.numerator != 0 then Some(a.numerator) else None
  }

  /** One input and one output of one asset, paying the active fee in that asset. */
  predicate OneAssetShape(tx: Transaction, fee: nat) {
    && |tx.inputs| == 1 && |tx.outputs| == 1
    && tx.inputs[0].prime == tx.outputs[0].prime && tx.fee.prime == tx.inputs[0].prime
    && tx.fee.amount.denominator == 1 && tx.fee.amount.numerator == fee
  }

  predicate ShapeOk(ctx: Context, tx: Transaction) {
    && (IsTransfer(tx) ==> OneAssetShape(tx, ctx.transferFee))
    && (IsReserveLock(tx) ==> OneAssetShape(tx, ctx.transferFee) && IsReserve(tx.outputs[0].receiver))
    && (IsReserveUnlock(tx) ==> tx.sender !in ctx.validators && OneAssetShape(tx, ctx.transferFee))
  }

  /** The receivers occur among the members in order: the greedy search of the source. */
  predicate InOrder(receivers: seq<Address>, members: seq<Address>)
    decreases |members|
  {
    if receivers == [] then true
    else if members == [] then false
    else if members[0] == receivers[0] then InOrder(receivers[1..], members[1..])
    else InOrder(receivers, members[1..])
  }

  function Receivers(outputs: seq<TxOutput>): (rs: seq<Address>)
    ensures |rs| == |outputs|
  {
    seq(|outputs|, i requires 0 <= i < |outputs| => outputs[i].receiver)
  }

  /** The share of the i-th of n receivers: the remainder goes to the first ones. */
  function Share(total: nat, n: nat, i: nat): nat
    requires n >= 1
  {
    total / n + if i < total % n then 1 else 0
  }

  /** A distribution empties the pool asset in equal shares to members. */
  predicate PoolShape(tx: Transaction, members: seq<Address>, pool: nat, everyone: bool) {
    && members != [] && tx.publicKey == [] && tx.signature == []
    && |tx.inputs| == 1
    && tx.fee.prime == tx.inputs[0].prime && tx.fee.amount == Amount(0, 1)
    && MicroUnits(tx.inputs[0].amount) == Some(pool)
    && 1 <= |tx.outputs| <= |members| && (everyone ==> |tx.outputs| == |members|)
    && InOrder(Receivers(tx.outputs), members)
    && forall i :: 0 <= i < |tx.outputs| ==>
         && tx.outputs[i].prime == tx.inputs[0].prime
         && tx.outputs[i].amount.denominator == 1
         && tx.outputs[i].amount.numerator == Share(pool, |tx.outputs|, i)
  }

  function EpochMembers(ctx: Context, epoch: nat): seq<Address> {
    if epoch in ctx.epochs then ctx.epochs[epoch] else []
  }

  predicate DistributionOk(ctx: Context, balances: Balances, tx: Transaction)
    requires tx.inputs != []
  {
    var pool := BalanceOf(balances, Asset(tx.sender, tx.inputs[0].prime));
    && (IsFeeDistribution(tx, ctx) ==> PoolShape(tx, ctx.validators, pool, false))
    && (IsRewardDistribution(tx) ==>
          && RewardPoolEpoch(tx.sender).Some?
          && PoolShape(tx, EpochMembers(ctx, RewardPoolEpoch(tx.sender).value), pool,
                       ctx.integer >= FULL_REWARD_DISTRIBUTION))
  }

  function NonceOf(nonces: map<Address, nat>, a: Address): nat {
    if a in nonces then nonces[a] else 0
  }

  predicate NonceOk(nonces: map<Address, nat>, tx: Transaction) {
    NonceOf(nonces, tx.sender) + 1 < TWO_64 && tx.nonce == NonceOf(nonces, tx.sender) + 1
  }

  predicate FeeOk(tx: Transaction) {
    tx.fee.amount.denominator == 1 && (tx.fee.amount.numerator != 0 ==> tx.fee.prime >= 2)
  }

  /** All checks on a transaction before its amounts are added up. */
  predicate Admissible(sigs: Signatures, ctx: Context, accounts: Accounts, tx: Transaction) {
    && SignatureOk(sigs, ctx, tx)
    && tx.inputs != [] && tx.outputs != []
    && DistributionOk(ctx, accounts.money.balances, tx)
    && ShapeOk(ctx, tx) && NonceOk(accounts.nonces, tx) && FeeOk(tx)
  }

  // ---------------------------------------------------------------- totals

  /** Adds an amount to the total of an asset, checked against 64 bits. */
  function AddTotal(totals: Supply, p: nat, amount: nat): Option<Supply> {
    if SupplyOf(totals, p) + amount < TWO_64 then Some(totals[p := SupplyOf(totals, p) + amount]) else None
  }

  function InputTotals(inputs: seq<TxInput>): Option<Supply> {
    if inputs == [] then Some(map[])
    else
      var last := inputs[|inputs| - 1];
      var before := InputTotals(inputs[..|inputs| - 1]);
      if before.None? || MicroUnits(last.amount).None? then None
      else AddTotal(before.value, last.prime, last.amount.numerator)
  }

  function OutputTotals(outputs: seq<TxOutput>): Option<Supply> {
    if outputs == [] then Some(map[])
    else
      var last := outputs[|outputs| - 1];
      var before := OutputTotals(outputs[..|outputs| - 1]);
      if before.None? || !IsProtocolAddress(last.receiver) || MicroUnits(last.amount).None? then None
      else AddTotal(before.value, last.prime, last.amount.numerator)
  }

  /** Outputs and fee together. */
  function CreditTotals(tx: Transaction): Option<Supply> {
    var outputs := OutputTotals(tx.outputs);
    if outputs.None? || tx.fee.amount.numerator == 0 then outputs
    else AddTotal(outputs.value, tx.fee.prime, tx.fee.amount.numerator)
  }

  /** For every asset the inputs equal the outputs plus the fee. */
  predicate Balanced(tx: Transaction) {
    InputTotals(tx.inputs).Some? && InputTotals(tx.inputs) == CreditTotals(tx)
  }

  // ---------------------------------------------------------------- application

  /** One owner's balances lowered by the totals. */
  function Lowered(b: Balances, owner: Address, totals: Supply): (c: Balances)
    requires forall p :: p in totals ==> Asset(owner, p) in b && totals[p] <= b[Asset(owner, p)]
    ensures c.Keys == b.Keys
    ensures forall k :: k in b ==> c[k] == if k.owner == owner then b[k] - SupplyOf(totals, k.prime) else b[k]
  {
    map k | k in b :: if k.owner == owner && k.prime in totals then b[k] - totals[k.prime] else b[k]
  }

  function LoweredSupply(s: Supply, totals: Supply): (t: Supply)
    requires forall p :: p in totals ==> totals[p] < TWO_64
    ensures t.Keys == s.Keys + totals.Keys
    ensures forall p :: p in t ==> t[p] == if p in totals then SubWrap(SupplyOf(s, p), totals[p]) else s[p]
  {
    map p | p in s.Keys + totals.Keys :: if p in totals then SubWrap(SupplyOf(s, p), totals[p]) else s[p]
  }

  predicate Affords(b: Balances, owner: Address, totals: Supply) {
    forall p :: p in totals ==> Asset(owner, p) in b && totals[p] <= b[Asset(owner, p)] && totals[p] < TWO_64
  }

  /** Takes the totals from one owner's balances. */
  function DebitAll(m: Money, owner: Address, totals: Supply): Option<Money> {
    if !Affords(m.balances, owner, totals) then None
    else Some(Money(Lowered(m.balances, owner, totals), LoweredSupply(m.supply, totals)))
  }

  function CreditOutputs(m: Money, outputs: seq<TxOutput>): Option<Money> {
    if outputs == [] then Some(m)
    else
      var last := outputs[|outputs| - 1];
      var before := CreditOutputs(m, outputs[..|outputs| - 1]);
      if before.None? then None
      else Credit(before.value, Asset(last.receiver, last.prime), last.amount.numerator)
  }

  /** The balance an ordinary transaction spends; an unlock spends the reserve. */
  function Spender(tx: Transaction): Address {
    if IsReserveUnlock(tx) then ReserveAddress(tx.sender) else tx.sender
  }

  function Move(m: Money, tx: Transaction): Option<Money>
    requires InputTotals(tx.inputs).Some?
  {
    var debited := DebitAll(m, Spender(tx), InputTotals(tx.inputs).value);
    if debited.None? then None else CreditOutputs(debited.value, tx.outputs)
  }

  datatype Batch = Batch(accounts: Accounts, fees: Supply)

  function CollectFee(fees: Supply, tx: Transaction): Option<Supply> {
    if tx.fee.amount.numerator == 0 then Some(fees) else AddTotal(fees, tx.fee.prime, tx.fee.amount.numerator)
  }

  /** One transaction of a batch, its fee set aside. */
  function ApplyTx(sigs: Signatures, ctx: Context, batch: Batch, tx: Transaction): (r: Option<Batch>) {
    if !Admissible(sigs, ctx, batch.accounts, tx) || !Balanced(tx) then None
    else
      var money := Move(batch.accounts.money, tx);
      var fees := CollectFee(batch.fees, tx);
      if money.None? || fees.None? then None
      else Some(Batch(Accounts(money.value, batch.accounts.nonces[tx.sender := tx.nonce]), fees.value))
  }

  function ApplyAll(sigs: Signatures, ctx: Context, accounts: Accounts, txs: seq<Transaction>): (r: Option<Batch>) {
    if txs == [] then Some(Batch(accounts, map[]))
    else
      var before := ApplyAll(sigs, ctx, accounts, txs[..|txs| - 1]);
      if before.None? then None else ApplyTx(sigs, ctx, before.value, txs[|txs| - 1])
  }

  /** One owner's balances raised by the fees. */
  function Raised(b: Balances, owner: Address, fees: Supply): (c: Balances)
    ensures c.Keys == b.Keys + FeeAssets(owner, fees)
    ensures forall k :: k in c ==> c[k] == BalanceOf(b, k) + if k.owner == owner then SupplyOf(fees, k.prime) else 0
  {
    map k | k in b.Keys + FeeAssets(owner, fees) ::
      BalanceOf(b, k) + if k.owner == owner && k.prime in fees then fees[k.prime] else 0
  }

  function FeeAssets(owner: Address, fees: Supply): (assets: set<Asset>)
    ensures forall k :: k in assets <==> k.owner == owner && k.prime in fees
  {
    set p | p in fees :: Asset(owner, p)
  }

  function RaisedSupply(s: Supply, fees: Supply): (t: Supply)
    ensures t.Keys == s.Keys + fees.Keys
    ensures forall p :: p in t ==> t[p] == SupplyOf(s, p) + SupplyOf(fees, p)
  {
    map p | p in s.Keys + fees.Keys :: SupplyOf(s, p) + SupplyOf(fees, p)
  }

  /** Pays the collected fees of every asset to one address. */
  function CreditFees(m: Money, to: Address, fees: Supply): Option<Money> {
    if exists p :: p in fees && Credit(m, Asset(to, p), fees[p]).None? then None
    else Some(Money(Raised(m.balances, to, fees), RaisedSupply(m.supply, fees)))
  }

  /** A whole batch; fees are paid out when there is a recipient. */
  function ApplyTransactions(
    sigs: Signatures, ctx: Context, accounts: Accounts, txs: seq<Transaction>, feeRecipient: Address): (r: Option<Accounts>)
  {
    var batch := ApplyAll(sigs, ctx, accounts, txs);
    if batch.None? then None
    else if feeRecipient == "" then Some(batch.value.accounts)
    else
      var paid := CreditFees(batch.value.accounts.money, feeRecipient, batch.value.fees);
      if paid.None? then None else Some(batch.value.accounts.(money := paid.value))
  }
}
