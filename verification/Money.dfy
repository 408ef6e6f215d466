/**
 Balances and supply of prime assets (src/node/sequential_node.cpp, credit and debit): the
 supply of an asset is the sum of its balances, and debits never underflow it.
 */
module Money {
  import opened Machine
  import opened Sets
  import opened Addresses

  datatype Asset = Asset(owner: Address, prime: nat)

  type Balances = map<Asset, nat>
  type Supply = map<nat, nat>

  datatype Money = Money(balances: Balances, supply: Supply)

  function BalanceOf(b: Balances, k: Asset): nat {
    if k in b then b[k] else 0
  }

  function SupplyOf(s: Supply, p: nat): nat {
    if p in s then s[p] else 0
  }

  /** Adds to a balance and to the supply, both checked against 64 bits. */
  function Credit(m: Money, k: Asset, amount: nat): (r: Option<Money>) {
    var balance, supply := BalanceOf(m.balances, k) + amount, SupplyOf(m.supply, k.prime) + amount;
    if balance < TWO_64 && supply < TWO_64 then
      Some(Money(m.balances[k := balance], m.supply[k.prime := supply]))
    else None
  }

  /** Unsigned subtraction, wrapping below zero. */
  function SubWrap(x: nat, y: nat): (z: nat)
    requires y < TWO_64
    ensures y <= x <==> z == x - y
  {
    if y <= x then x - y else x + TWO_64 - y
  }

  /** Takes from a balance that suffices; the supply is reduced without a check. */
  function Debit(m: Money, k: Asset, amount: nat): (r: Option<Money>) {
    if k !in m.balances || m.balances[k] < amount || amount >= TWO_64 then None
    else Some(Money(m.balances[k := m.balances[k] - amount],
                    m.supply[k.prime := SubWrap(SupplyOf(m.supply, k.prime), amount)]))
  }

  // ---------------------------------------------------------------- sums

  ghost function SumOver(b: Balances, keys: set<Asset>): nat
    requires keys <= b.Keys
  {
    if keys == {} then 0
    else
      var k := Pick(keys);
      b[k] + SumOver(b, keys - {k})
  }

  lemma {:induction false} SumOverRemove(b: Balances, keys: set<Asset>, k: Asset)
    requires keys <= b.Keys && k in keys
    ensures SumOver(b, keys) == b[k] + SumOver(b, keys - {k})
    decreases |keys|
  {
    var j := Pick(keys);
    if j != k {
      SumOverRemove(b, keys - {j}, k);
      SumOverRemove(b, keys - {k}, j);
      assert keys - {j} - {k} == keys - {k} - {j};
    }
  }

  lemma {:induction false} SumOverAgree(b: Balances, c: Balances, keys: set<Asset>)
    requires keys <= b.Keys && keys <= c.Keys && forall k :: k in keys ==> b[k] == c[k]
    ensures SumOver(b, keys) == SumOver(c, keys)
    decreases |keys|
  {
    if keys != {} {
      var k := Pick(keys);
      SumOverAgree(b, c, keys - {k});
    }
  }

  ghost function Holders(b: Balances, p: nat): (keys: set<Asset>)
    ensures keys <= b.Keys
  {
    set k | k in b && k.prime == p
  }

  /** The sum of all balances of an asset. */
  ghost function Held(b: Balances, p: nat): nat {
    SumOver(b, Holders(b, p))
  }

  lemma HeldUpdate(b: Balances, k: Asset, amount: nat, p: nat)
    ensures Held(b[k := amount], p) == if k.prime == p then Held(b, p) - BalanceOf(b, k) + amount else Held(b, p)
    ensures k.prime == p ==> BalanceOf(b, k) <= Held(b, p)
  {
    var c := b[k := amount];
    if k.prime == p {
      var rest := Holders(b, p) - {k};
      assert rest == Holders(c, p) - {k};
      SumOverRemove(c, Holders(c, p), k);
      SumOverAgree(b, c, rest);
      if k in b {
        SumOverRemove(b, Holders(b, p), k);
      } else {
        assert rest == Holders(b, p);
      }
    } else {
      assert Holders(b, p) == Holders(c, p);
      SumOverAgree(b, c, Holders(b, p));
    }
  }

  /** Every balance is part of the sum. */
  lemma BalanceWithinHeld(b: Balances, k: Asset)
    ensures BalanceOf(b, k) <= Held(b, k.prime)
  {
    HeldUpdate(b, k, 0, k.prime);
  }

  // ---------------------------------------------------------------- consistency

  /** The assets with a supply are those with a balance. */
  ghost predicate SameAssets(m: Money) {
    && (forall k :: k in m.balances ==> k.prime in m.supply)
    && (forall p :: p in m.supply ==> exists k :: k in m.balances && k.prime == p)
  }

  /** The supply is the sum of the balances. */
  ghost predicate Consistent(m: Money) {
    SameAssets(m) && forall p :: p in m.supply ==> m.supply[p] == Held(m.balances, p)
  }

  lemma ConsistentSupply(m: Money, p: nat)
    requires Consistent(m)
    ensures SupplyOf(m.supply, p) == Held(m.balances, p)
  {
    if p !in m.supply {
      assert Holders(m.balances, p) == {};
    }
  }

  lemma SameAssetsUpdate(m: Money, k: Asset, balance: nat, supply: nat)
    requires SameAssets(m)
    ensures SameAssets(Money(m.balances[k := balance], m.supply[k.prime := supply]))
  {
    var next := Money(m.balances[k := balance], m.supply[k.prime := supply]);
    forall p | p in next.supply
      ensures exists j :: j in next.balances && j.prime == p
    {
      if p == k.prime {
        assert k in next.balances;
      } else {
        var j :| j in m.balances && j.prime == p;
        assert j in next.balances;
      }
    }
  }

  lemma CreditConsistent(m: Money, k: Asset, amount: nat)
    requires Consistent(m) && Credit(m, k, amount).Some?
    ensures Consistent(Credit(m, k, amount).value)
  {
    var next := Credit(m, k, amount).value;
    SameAssetsUpdate(m, k, BalanceOf(m.balances, k) + amount, SupplyOf(m.supply, k.prime) + amount);
    ConsistentSupply(m, k.prime);
    forall p | p in next.supply
      ensures next.supply[p] == Held(next.balances, p)
    {
      HeldUpdate(m.balances, k, BalanceOf(m.balances, k) + amount, p);
    }
  }

  /** A debit keeps the books and never takes the supply below zero. */
  lemma DebitConsistent(m: Money, k: Asset, amount: nat)
    requires Consistent(m) && Debit(m, k, amount).Some?
    ensures Consistent(Debit(m, k, amount).value)
    ensures amount <= SupplyOf(m.supply, k.prime)
    ensures SupplyOf(Debit(m, k, amount).value.supply, k.prime) == SupplyOf(m.supply, k.prime) - amount
  {
    var next := Debit(m, k, amount).value;
    ConsistentSupply(m, k.prime);
    BalanceWithinHeld(m.balances, k);
    SameAssetsUpdate(m, k, m.balances[k] - amount, SubWrap(SupplyOf(m.supply, k.prime), amount));
    forall p | p in next.supply
      ensures next.supply[p] == Held(next.balances, p)
    {
      HeldUpdate(m.balances, k, m.balances[k] - amount, p);
    }
  }

  /** A credit overflows only when the supply itself would. */
  lemma CreditFits(m: Money, k: Asset, amount: nat)
    requires Consistent(m)
    ensures Credit(m, k, amount).Some? <==> SupplyOf(m.supply, k.prime) + amount < TWO_64
  {
    ConsistentSupply(m, k.prime);
    BalanceWithinHeld(m.balances, k);
  }
}
