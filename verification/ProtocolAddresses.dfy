/** The kinds of address that can hold assets (src/protocol/records.cpp). */
module ProtocolAddresses {
  import opened Machine
  import opened Addresses

  const FEE_POOL := "pcpool_validator_fees_epoch_"
  const REWARD_POOL := "pcpool_validator_rewards_epoch_"
  const RESERVE := "pcreserve_validator_"
  const DEVELOPMENT := "pcdev1_"

  predicate IsDigits(s: string) {
    forall i :: 0 <= i < |s| ==> '0' <= s[i] <= '9'
  }

  /** A proper extension of the prefix whose rest satisfies p. */
  predicate Tagged(prefix: string, a: Address, p: string -> bool) {
    |a| > |prefix| && a[..|prefix|] == prefix && p(a[|prefix|..])
  }

  predicate IsDevelopmentAddress(a: Address) {
    && |a| <= 64 && |a| > |DEVELOPMENT| && a[..|DEVELOPMENT|] == DEVELOPMENT
    && forall i :: 0 <= i < |a| ==> '!' <= a[i] <= '~'
  }

  predicate IsFeePool(a: Address) {
    Tagged(FEE_POOL, a, IsDigits)
  }

  predicate IsRewardPool(a: Address) {
    Tagged(REWARD_POOL, a, IsDigits)
  }

  predicate IsReserve(a: Address) {
    Tagged(RESERVE, a, IsSignatureAddress)
  }

  predicate IsProtocolAddress(a: Address) {
    IsDevelopmentAddress(a) || IsFeePool(a) || IsRewardPool(a) || IsReserve(a) || IsSignatureAddress(a)
  }

  // ---------------------------------------------------------------- decimal epochs

  function Digit(d: nat): char
    requires d < 10
  {
    ['0', '1', '2', '3', '4', '5', '6', '7', '8', '9'][d]
  }

  function Decimal(n: nat): (s: string)
    ensures |s| >= 1 && IsDigits(s)
  {
    if n < 10 then [Digit(n)] else Decimal(n / 10) + [Digit(n % 10)]
  }

  /** The number a string of digits stands for. */
  function Parse(s: string): (n: nat)
    requires IsDigits(s)
  {
    if s == "" then 0 else Parse(s[..|s| - 1]) * 10 + (s[|s| - 1] as nat - '0' as nat)
  }

  lemma {:induction false} ParseDecimal(n: nat)
    ensures Parse(Decimal(n)) == n
  {
    if n >= 10 {
      ParseDecimal(n / 10);
      assert Decimal(n)[..|Decimal(n)| - 1] == Decimal(n / 10);
    }
  }

  function FeePoolAddress(epoch: nat): (a: Address)
    ensures IsFeePool(a) && !IsRewardPool(a) && !IsSignatureAddress(a)
  {
    var a := FEE_POOL + Decimal(epoch);
    assert a[..|FEE_POOL|] == FEE_POOL && a[|FEE_POOL|..] == Decimal(epoch);
    assert a[17] == 'f' && a[..6] == "pcpool";
    a
  }

  function RewardPoolAddress(epoch: nat): (a: Address)
    ensures IsRewardPool(a) && !IsSignatureAddress(a)
  {
    var a := REWARD_POOL + Decimal(epoch);
    assert a[..|REWARD_POOL|] == REWARD_POOL && a[|REWARD_POOL|..] == Decimal(epoch);
    assert a[..6] == "pcpool";
    a
  }

  function ReserveAddress(validator: Address): Address {
    RESERVE + validator
  }

  lemma ReserveOfSigner(validator: Address)
    requires IsSignatureAddress(validator)
    ensures IsReserve(ReserveAddress(validator))
  {
    assert ReserveAddress(validator)[|RESERVE|..] == validator;
  }

  /** The epoch in a reward-pool address, if it fits 64 bits. */
  function RewardPoolEpoch(a: Address): (epoch: Option<nat>)
    requires IsRewardPool(a)
  {
    var n := Parse(a[|REWARD_POOL|..]);
    if n < TWO_64 then Some(n) else None
  }

  /** The pool address of an epoch parses back to that epoch. */
  lemma RewardPoolRoundTrip(epoch: nat)
    requires epoch < TWO_64
    ensures RewardPoolEpoch(RewardPoolAddress(epoch)) == Some(epoch)
  {
    ParseDecimal(epoch);
    assert RewardPoolAddress(epoch)[|REWARD_POOL|..] == Decimal(epoch);
  }
}
