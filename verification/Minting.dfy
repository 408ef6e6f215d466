/** A prime record creates exactly one asset: none of the checks on the way can refuse it. */
module Minting {
  import opened Machine
  import opened Addresses
  import opened ProtocolAddresses
  import opened Money
  import opened Ledger

  /** The supply of p is raised by `amount`, the others are unchanged. */
  ghost predicate Raises(s: Supply, s': Supply, p: nat, amount: nat) {
    s' == s[p := SupplyOf(s, p) + amount]
  }

  lemma CreditRaises(m: Money, k: Asset, amount: nat)
    requires Consistent(m) && SupplyOf(m.supply, k.prime) + amount < TWO_64
    ensures Credit(m, k, amount).Some? && Consistent(Credit(m, k, amount).value)
    ensures Raises(m.supply, Credit(m, k, amount).value.supply, k.prime, amount)
  {
    CreditFits(m, k, amount);
    CreditConsistent(m, k, amount);
  }

  lemma RaisesTwice(a: Supply, b: Supply, c: Supply, p: nat, x: nat, y: nat)
    requires Raises(a, b, p, x) && Raises(b, c, p, y)
    ensures Raises(a, c, p, x + y)
  {
  }

  /** n equal amounts, added up. */
  function Times(n: nat, amount: nat): nat {
    if n == 0 then 0 else Times(n - 1, amount) + amount
  }

  lemma {:induction false} TimesIsProduct(n: nat, amount: nat)
    ensures Times(n, amount) == n * amount
  {
    if n > 0 {
      TimesIsProduct(n - 1, amount);
      assert (n - 1) * amount + amount == n * amount;
    }
  }

  lemma UpdateSame(s: Supply, p: nat)
    requires p in s
    ensures Raises(s, s, p, 0)
  {
  }

  lemma {:induction false} CreditEachRaises(m: Money, owners: seq<Address>, p: nat, amount: nat)
    requires Consistent(m) && p in m.supply && SupplyOf(m.supply, p) + Times(|owners|, amount) < TWO_64
    ensures CreditEach(m, owners, p, amount).Some?
    ensures Consistent(CreditEach(m, owners, p, amount).value)
    ensures Raises(m.supply, CreditEach(m, owners, p, amount).value.supply, p, Times(|owners|, amount))
  {
    hide Consistent;
    if owners == [] {
      UpdateSame(m.supply, p);
    } else {
      var init := owners[..|owners| - 1];
      CreditEachRaises(m, init, p, amount);
      var before := CreditEach(m, init, p, amount).value;
      CreditRaises(before, Asset(owners[|owners| - 1], p), amount);
      RaisesTwice(m.supply, before.supply, CreditEach(m, owners, p, amount).value.supply, p, Times(|init|, amount), amount);
    }
  }

  lemma Divided(total: nat, n: nat)
    requires n >= 1
    ensures total % n + Times(n, total / n) == total
  {
    TimesIsProduct(n, total / n);
  }

  lemma PartsRaise(m: Money, finder: Address, pending: seq<Address>, p: nat, first: nat, each: nat)
    requires Consistent(m) && SupplyOf(m.supply, p) + first + Times(|pending|, each) < TWO_64
    ensures Credit(m, Asset(finder, p), first).Some?
    ensures var found := Credit(m, Asset(finder, p), first).value;
            && CreditEach(found, pending, p, each).Some?
            && Consistent(CreditEach(found, pending, p, each).value)
            && Raises(m.supply, CreditEach(found, pending, p, each).value.supply, p, first + Times(|pending|, each))
  {
    hide Consistent;
    CreditRaises(m, Asset(finder, p), first);
    var found := Credit(m, Asset(finder, p), first).value;
    CreditEachRaises(found, pending, p, each);
    RaisesTwice(m.supply, found.supply, CreditEach(found, pending, p, each).value.supply, p, first, Times(|pending|, each));
  }

  /** The finder's part, the remainder and the providers' parts make up the total. */
  lemma RewardRaises(m: Money, finder: Address, pending: seq<Address>, p: nat, finderPart: nat, compositePart: nat)
    requires Consistent(m) && SupplyOf(m.supply, p) + finderPart + compositePart < TWO_64
    ensures Reward(m, finder, pending, p, finderPart, compositePart).Some?
    ensures Consistent(Reward(m, finder, pending, p, finderPart, compositePart).value)
    ensures Raises(m.supply, Reward(m, finder, pending, p, finderPart, compositePart).value.supply, p, finderPart + compositePart)
  {
    hide Consistent;
    if pending == [] {
      CreditRaises(m, Asset(finder, p), finderPart + compositePart);
    } else {
      Divided(compositePart, |pending|);
      PartsRaise(m, finder, pending, p, finderPart + compositePart % |pending|, compositePart / |pending|);
    }
  }

  /** Exactly 1,000,000 units: the "already minted" check and the conservation check never
      refuse a new asset. */
  lemma MintExact(s: State, m: Money, finder: Address, height: nat, p: nat)
    requires Consistent(m) && p !in m.supply
    ensures Mint(s, m, finder, height, p).Some?
    ensures Consistent(Mint(s, m, finder, height, p).value)
    ensures Mint(s, m, finder, height, p).value.supply == m.supply[p := ASSET]
  {
    hide Consistent;
    if s.validators == [] || height == 0 {
      RewardRaises(m, finder, s.pending, p, ASSET / 2, ASSET / 2);
    } else {
      var k := Asset(RewardPoolAddress(s.epoch), p);
      CreditRaises(m, k, VALIDATOR_REWARD);
      var pool := Credit(m, k, VALIDATOR_REWARD).value;
      RewardRaises(pool, finder, s.pending, p, PRIME_REWARD, COMPOSITE_REWARD);
      RaisesTwice(m.supply, pool.supply, Reward(pool, finder, s.pending, p, PRIME_REWARD, COMPOSITE_REWARD).value.supply, p,
                  VALIDATOR_REWARD, PRIME_REWARD + COMPOSITE_REWARD);
    }
  }
}
