/**
 The root of a record's transactions (src/protocol/records.cpp, transactionBatchRoot): a flat
 hash before version 12, a binary Merkle tree since. The root is checked together with the
 number of transactions, and the two determine the list.
 */
module BatchRoots {
  import opened Machine
  import opened Records
  import opened Formats
  import opened Merkle

  const FLAT_LABEL := "primechain-dev-tx-root-v0"
  const LEAF_LABEL := "primechain-tx-merkle-leaf-v1"
  const NODE_LABEL := "primechain-tx-merkle-node-v1"

  /** How transactions are encoded and bytes hashed. */
  datatype Digester = Digester(encode: Transaction -> Bytes, hash: Bytes -> Hash256)

  function TransactionHash(d: Digester, tx: Transaction): Hash256 {
    d.hash(d.encode(tx))
  }

  function LeafBytes(d: Digester, tx: Transaction): Bytes {
    TEXT.render(LEAF_LABEL) + TransactionHash(d, tx)
  }

  function NodeBytes(left: Hash256, right: Hash256): Bytes {
    TEXT.render(NODE_LABEL) + left + right
  }

  function TreeHashing(d: Digester): Hashing<Transaction, Hash256> {
    Hashing((tx: Transaction) => d.hash(LeafBytes(d, tx)),
            (left: Hash256, right: Hash256) => d.hash(NodeBytes(left, right)),
            NULL_HASH)
  }

  function HashesInOrder(d: Digester, txs: seq<Transaction>): (b: Bytes)
    ensures |b| == 32 * |txs|
  {
    if txs == [] then [] else TransactionHash(d, txs[0]) + HashesInOrder(d, txs[1..])
  }

  function FlatBytes(d: Digester, txs: seq<Transaction>): Bytes {
    TEXT.render(FLAT_LABEL) + LittleEndian(|txs|, 8) + HashesInOrder(d, txs)
  }

  function BatchRoot(d: Digester, txs: seq<Transaction>, version: u64): Hash256 {
    if txs == [] then NULL_HASH
    else if version >= BINARY_MERKLE then Root(TreeHashing(d), txs)
    else d.hash(FlatBytes(d, txs))
  }

  // ---------------------------------------------------------------- binding

  /** Everything hashed for the root of a batch. */
  ghost function HashedFor(d: Digester, txs: seq<Transaction>, version: u64): set<Bytes> {
    (set tx | tx in txs :: d.encode(tx))
    + if version < BINARY_MERKLE then {FlatBytes(d, txs)}
      else (set tx | tx in txs :: LeafBytes(d, tx))
           + set p | p in Hashed(TreeHashing(d), Leaves(TreeHashing(d), txs)) :: NodeBytes(p.0, p.1)
  }

  /** Among these bytes no two different ones have the same hash. */
  ghost predicate CollisionFree(hash: Bytes -> Hash256, bytes: set<Bytes>) {
    forall x, y :: x in bytes && y in bytes && hash(x) == hash(y) ==> x == y
  }

  ghost predicate SameBytes(d: Digester, a: seq<Transaction>, b: seq<Transaction>) {
    |a| == |b| && forall i :: 0 <= i < |a| ==> d.encode(a[i]) == d.encode(b[i])
  }

  lemma NodeBytesInjective(p: (Hash256, Hash256), q: (Hash256, Hash256))
    requires NodeBytes(p.0, p.1) == NodeBytes(q.0, q.1)
    ensures p == q
  {
    var n := |TEXT.render(NODE_LABEL)|;
    assert NodeBytes(p.0, p.1)[n..n + 32] == p.0 && NodeBytes(p.0, p.1)[n + 32..] == p.1;
    assert NodeBytes(q.0, q.1)[n..n + 32] == q.0 && NodeBytes(q.0, q.1)[n + 32..] == q.1;
  }

  lemma LeafBytesInjective(d: Digester, x: Transaction, y: Transaction)
    requires LeafBytes(d, x) == LeafBytes(d, y)
    ensures TransactionHash(d, x) == TransactionHash(d, y)
  {
    var n := |TEXT.render(LEAF_LABEL)|;
    assert LeafBytes(d, x)[n..] == TransactionHash(d, x) && LeafBytes(d, y)[n..] == TransactionHash(d, y);
  }

  lemma {:induction false} HashesBind(d: Digester, a: seq<Transaction>, b: seq<Transaction>)
    requires |a| == |b| && HashesInOrder(d, a) == HashesInOrder(d, b)
    ensures forall i :: 0 <= i < |a| ==> TransactionHash(d, a[i]) == TransactionHash(d, b[i])
  {
    if a != [] {
      assert HashesInOrder(d, a)[..32] == TransactionHash(d, a[0]) && HashesInOrder(d, a)[32..] == HashesInOrder(d, a[1..]);
      assert HashesInOrder(d, b)[..32] == TransactionHash(d, b[0]) && HashesInOrder(d, b)[32..] == HashesInOrder(d, b[1..]);
      HashesBind(d, a[1..], b[1..]);
      forall i | 0 <= i < |a|
        ensures TransactionHash(d, a[i]) == TransactionHash(d, b[i])
      {
        assert i > 0 ==> a[i] == a[1..][i - 1] && b[i] == b[1..][i - 1];
      }
    }
  }

  lemma FlatBinds(d: Digester, a: seq<Transaction>, b: seq<Transaction>)
    requires |a| == |b| && FlatBytes(d, a) == FlatBytes(d, b)
    ensures forall i :: 0 <= i < |a| ==> TransactionHash(d, a[i]) == TransactionHash(d, b[i])
  {
    var n := |TEXT.render(FLAT_LABEL) + LittleEndian(|a|, 8)|;
    assert FlatBytes(d, a)[n..] == HashesInOrder(d, a) && FlatBytes(d, b)[n..] == HashesInOrder(d, b);
    HashesBind(d, a, b);
  }

  lemma TreeBinds(d: Digester, a: seq<Transaction>, b: seq<Transaction>, bytes: set<Bytes>)
    requires |a| == |b| && a != [] && Root(TreeHashing(d), a) == Root(TreeHashing(d), b)
    requires HashedFor(d, a, BINARY_MERKLE) <= bytes && HashedFor(d, b, BINARY_MERKLE) <= bytes
    requires CollisionFree(d.hash, bytes)
    ensures forall i :: 0 <= i < |a| ==> TransactionHash(d, a[i]) == TransactionHash(d, b[i])
  {
    var f := TreeHashing(d);
    var x, y := Leaves(f, a), Leaves(f, b);
    var pairs := Hashed(f, x) + Hashed(f, y);
    PairsCollisionFree(d, a, b, bytes);
    TopBinds(f, x, y, pairs);
    forall i | 0 <= i < |a|
      ensures TransactionHash(d, a[i]) == TransactionHash(d, b[i])
    {
      assert x[i] == d.hash(LeafBytes(d, a[i])) && y[i] == d.hash(LeafBytes(d, b[i]));
      assert LeafBytes(d, a[i]) in HashedFor(d, a, BINARY_MERKLE) && LeafBytes(d, b[i]) in HashedFor(d, b, BINARY_MERKLE);
      LeafBytesInjective(d, a[i], b[i]);
    }
  }

  lemma PairsCollisionFree(d: Digester, a: seq<Transaction>, b: seq<Transaction>, bytes: set<Bytes>)
    requires HashedFor(d, a, BINARY_MERKLE) <= bytes && HashedFor(d, b, BINARY_MERKLE) <= bytes
    requires CollisionFree(d.hash, bytes)
    ensures var f := TreeHashing(d); NoCollision(f, Hashed(f, Leaves(f, a)) + Hashed(f, Leaves(f, b)))
  {
    var f := TreeHashing(d);
    var pairs := Hashed(f, Leaves(f, a)) + Hashed(f, Leaves(f, b));
    forall p, q | p in pairs && q in pairs && f.node(p.0, p.1) == f.node(q.0, q.1)
      ensures p == q
    {
      assert NodeBytes(p.0, p.1) in bytes && NodeBytes(q.0, q.1) in bytes;
      NodeBytesInjective(p, q);
    }
  }

  /** The count and the root the node checks determine the transactions byte for byte, unless
      two of the byte strings actually hashed collide. */
  lemma BatchBinds(d: Digester, a: seq<Transaction>, b: seq<Transaction>, version: u64)
    requires |a| == |b| && BatchRoot(d, a, version) == BatchRoot(d, b, version)
    requires CollisionFree(d.hash, HashedFor(d, a, version) + HashedFor(d, b, version))
    ensures SameBytes(d, a, b)
  {
    if a != [] {
      var bytes := HashedFor(d, a, version) + HashedFor(d, b, version);
      if version >= BINARY_MERKLE {
        assert HashedFor(d, a, version) == HashedFor(d, a, BINARY_MERKLE);
        assert HashedFor(d, b, version) == HashedFor(d, b, BINARY_MERKLE);
        TreeBinds(d, a, b, bytes);
      } else {
        assert FlatBytes(d, a) in bytes && FlatBytes(d, b) in bytes;
        FlatBinds(d, a, b);
      }
      forall i | 0 <= i < |a|
        ensures d.encode(a[i]) == d.encode(b[i])
      {
        assert d.encode(a[i]) in HashedFor(d, a, version) && d.encode(b[i]) in HashedFor(d, b, version);
      }
    }
  }

  // ---------------------------------------------------------------- the root in bytes

  /** From a leaf to the root over the bytes that are hashed. */
  function Ascend(hash: Bytes -> Hash256, x: Hash256, i: nat, path: seq<Hash256>): Hash256
    decreases |path|
  {
    if path == [] then x
    else
      var pair := if i % 2 == 0 then x + path[0] else path[0] + x;
      Ascend(hash, hash(TEXT.render("primechain-tx-merkle-node-v1") + pair), i / 2, path[1..])
  }

  lemma {:induction false} AscendClimbs(d: Digester, x: Hash256, i: nat, path: seq<Hash256>)
    ensures Ascend(d.hash, x, i, path) == Climb(TreeHashing(d), x, i, path)
    decreases |path|
  {
    if path != [] {
      var l, r := if i % 2 == 0 then x else path[0], if i % 2 == 0 then path[0] else x;
      assert TEXT.render(NODE_LABEL) + (l + r) == NodeBytes(l, r);
      AscendClimbs(d, d.hash(NodeBytes(l, r)), i / 2, path[1..]);
    }
  }

  /** From version 12 on the root is what every transaction leads to: its hash behind the leaf
      label, then level by level the pair in order behind the node label, the last of an odd level
      with itself. */
  lemma EveryPathIsRoot(d: Digester, txs: seq<Transaction>, version: u64, i: nat)
    requires i < |txs| && version >= 12
    ensures var leaf := d.hash(TEXT.render("primechain-tx-merkle-leaf-v1") + d.hash(d.encode(txs[i])));
            Ascend(d.hash, leaf, i, Siblings(TreeHashing(d), Leaves(TreeHashing(d), txs), i)) == BatchRoot(d, txs, version)
  {
    var f := TreeHashing(d);
    var level := Leaves(f, txs);
    assert level[i] == d.hash(LeafBytes(d, txs[i]));
    AscendClimbs(d, level[i], i, Siblings(f, level, i));
    PathsMeet(f, level, i);
  }

  lemma {:induction false} HashAtPlace(d: Digester, txs: seq<Transaction>, i: nat)
    requires i < |txs|
    ensures HashesInOrder(d, txs)[32 * i..32 * i + 32] == d.hash(d.encode(txs[i]))
  {
    var first: Bytes, rest: Bytes := TransactionHash(d, txs[0]), HashesInOrder(d, txs[1..]);
    assert HashesInOrder(d, txs) == first + rest;
    if i > 0 {
      HashAtPlace(d, txs[1..], i - 1);
      assert (first + rest)[32 * i..32 * i + 32] == rest[32 * (i - 1)..32 * (i - 1) + 32];
    }
  }

  /** Before version 12 the root is the hash of the label, the number of transactions and their
      hashes, the i-th at its place. */
  lemma FlatRoot(d: Digester, txs: seq<Transaction>, version: u64, i: nat)
    requires i < |txs| && version < 12
    ensures var hashes := HashesInOrder(d, txs);
            && BatchRoot(d, txs, version) == d.hash(TEXT.render("primechain-dev-tx-root-v0") + LittleEndian(|txs|, 8) + hashes)
            && |hashes| == 32 * |txs| && hashes[32 * i..32 * i + 32] == d.hash(d.encode(txs[i]))
  {
    HashAtPlace(d, txs, i);
  }
}
