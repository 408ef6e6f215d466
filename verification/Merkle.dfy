/**
 The transaction Merkle root (src/protocol/records.cpp, transactionMerkleRoot). SHA3-256 is
 any pair of functions; binding needs no collision among the values actually hashed.
 */
module Merkle {

  /** leaf hashes an item, node hashes two hashes; the two are domain-separated. */
  datatype Hashing<!T, !H> = Hashing(leaf: T -> H, node: (H, H) -> H, none: H)

  function Leaves<T, H>(f: Hashing<T, H>, items: seq<T>): (level: seq<H>)
    ensures |level| == |items|
  {
    seq(|items|, i requires 0 <= i < |items| => f.leaf(items[i]))
  }

  function Half(n: nat): nat {
    (n + 1) / 2
  }

  /** The right partner of a node: its neighbour, or itself at the end of an odd level. */
  function Partner<H>(level: seq<H>, i: nat): H
    requires 2 * i < |level|
  {
    if 2 * i + 1 < |level| then level[2 * i + 1] else level[2 * i]
  }

  function NextLevel<T, H>(f: Hashing<T, H>, level: seq<H>): (next: seq<H>)
    ensures |next| == Half(|level|)
  {
    seq(Half(|level|), i requires 0 <= i < Half(|level|) => f.node(level[2 * i], Partner(level, i)))
  }

  function Top<T, H>(f: Hashing<T, H>, level: seq<H>): H
    requires level != []
    decreases |level|
  {
    if |level| == 1 then level[0] else Top(f, NextLevel(f, level))
  }

  function Root<T, H>(f: Hashing<T, H>, items: seq<T>): H {
    if items == [] then f.none else Top(f, Leaves(f, items))
  }

  /** One level computed pair by pair. */
  method ComputeLevel<T, H>(f: Hashing<T, H>, level: seq<H>) returns (next: seq<H>)
    ensures next == NextLevel(f, level)
  {
    next := [];
    var i := 0;
    while i < |level|
      invariant 0 <= i <= |level| + 1 && i == 2 * |next| && |next| <= Half(|level|)
      invariant forall k :: 0 <= k < |next| ==> next[k] == f.node(level[2 * k], Partner(level, k))
    {
      var right := if i + 1 < |level| then level[i + 1] else level[i];
      assert right == Partner(level, |next|);
      next := next + [f.node(level[i], right)];
      i := i + 2;
    }
  }

  /** The root, level by level; the loop ends because levels shrink. */
  method ComputeRoot<T, H>(f: Hashing<T, H>, items: seq<T>) returns (root: H)
    ensures root == Root(f, items)
  {
    if items == [] {
      return f.none;
    }
    var level := Leaves(f, items);
    while |level| > 1
      invariant level != [] && Top(f, level) == Root(f, items)
      decreases |level|
    {
      level := ComputeLevel(f, level);
    }
    root := level[0];
  }

  // ---------------------------------------------------------------- binding

  /** The pairs hashed on the way from a level to the top. */
  ghost function Hashed<T, H>(f: Hashing<T, H>, level: seq<H>): set<(H, H)>
    decreases |level|
  {
    if |level| <= 1 then {}
    else (set i | 0 <= i < Half(|level|) :: (level[2 * i], Partner(level, i))) + Hashed(f, NextLevel(f, level))
  }

  /** No two different pairs among those hashed have the same hash. */
  ghost predicate NoCollision<T, H>(f: Hashing<T, H>, pairs: set<(H, H)>) {
    forall p, q :: p in pairs && q in pairs && f.node(p.0, p.1) == f.node(q.0, q.1) ==> p == q
  }

  lemma PairsEqual<H>(a: seq<H>, b: seq<H>)
    requires |a| == |b|
    requires forall i :: 0 <= i < Half(|a|) ==> (a[2 * i], Partner(a, i)) == (b[2 * i], Partner(b, i))
    ensures a == b
  {
    forall k | 0 <= k < |a|
      ensures a[k] == b[k]
    {
      var i := k / 2;
      assert (a[2 * i], Partner(a, i)) == (b[2 * i], Partner(b, i));
    }
  }

  lemma {:induction false} TopBinds<T, H>(f: Hashing<T, H>, a: seq<H>, b: seq<H>, pairs: set<(H, H)>)
    requires |a| == |b| && a != [] && Top(f, a) == Top(f, b)
    requires Hashed(f, a) <= pairs && Hashed(f, b) <= pairs && NoCollision(f, pairs)
    ensures a == b
    decreases |a|
  {
    if |a| > 1 {
      var c, d := NextLevel(f, a), NextLevel(f, b);
      TopBinds(f, c, d, pairs);
      forall i | 0 <= i < Half(|a|)
        ensures (a[2 * i], Partner(a, i)) == (b[2 * i], Partner(b, i))
      {
        var p, q := (a[2 * i], Partner(a, i)), (b[2 * i], Partner(b, i));
        assert p in Hashed(f, a) && q in Hashed(f, b);
        assert c[i] == f.node(p.0, p.1) && d[i] == f.node(q.0, q.1);
      }
      PairsEqual(a, b);
    }
  }

  /** Binding: lists of the same length with the same root are the same list, unless two
      values that were actually hashed collide. */
  lemma RootBinds<T, H>(f: Hashing<T, H>, a: seq<T>, b: seq<T>)
    requires |a| == |b| && Root(f, a) == Root(f, b)
    requires NoCollision(f, Hashed(f, Leaves(f, a)) + Hashed(f, Leaves(f, b)))
    requires forall i :: 0 <= i < |a| && f.leaf(a[i]) == f.leaf(b[i]) ==> a[i] == b[i]
    ensures a == b
  {
    if a != [] {
      TopBinds(f, Leaves(f, a), Leaves(f, b), Hashed(f, Leaves(f, a)) + Hashed(f, Leaves(f, b)));
      forall i | 0 <= i < |a|
        ensures a[i] == b[i]
      {
        assert Leaves(f, a)[i] == Leaves(f, b)[i];
      }
    }
  }

  lemma OddLevelRepeats<T, H>(f: Hashing<T, H>, level: seq<H>)
    requires |level| % 2 == 1
    ensures NextLevel(f, level + [level[|level| - 1]]) == NextLevel(f, level)
  {
    var n := |level|;
    var longer := level + [level[n - 1]];
    assert Half(n + 1) == Half(n);
    forall i | 0 <= i < Half(n)
      ensures longer[2 * i] == level[2 * i] && Partner(longer, i) == Partner(level, i)
    {
    }
  }

  /** The count is needed: whatever the hash, repeating the last item of an odd list of at
      least three keeps the root. */
  lemma RootAloneIsAmbiguous<T, H>(f: Hashing<T, H>, items: seq<T>)
    requires |items| % 2 == 1 && |items| >= 3
    ensures Root(f, items + [items[|items| - 1]]) == Root(f, items)
  {
    var x, y := Leaves(f, items), Leaves(f, items + [items[|items| - 1]]);
    assert y == x + [x[|x| - 1]];
    OddLevelRepeats(f, x);
  }

  // ---------------------------------------------------------------- paths

  /** The node that is hashed together with node i. */
  function Sibling<H>(level: seq<H>, i: nat): H
    requires i < |level|
  {
    if i % 2 == 1 then level[i - 1] else if i + 1 < |level| then level[i + 1] else level[i]
  }

  /** The siblings on the way from node i to the top. */
  function Siblings<T, H>(f: Hashing<T, H>, level: seq<H>, i: nat): (path: seq<H>)
    requires i < |level|
    decreases |level|
  {
    if |level| == 1 then [] else [Sibling(level, i)] + Siblings(f, NextLevel(f, level), i / 2)
  }

  /** From a node to the top: even nodes are on the left of their sibling, odd ones on the
      right. */
  function Climb<T, H>(f: Hashing<T, H>, x: H, i: nat, path: seq<H>): H
    decreases |path|
  {
    if path == [] then x
    else Climb(f, if i % 2 == 0 then f.node(x, path[0]) else f.node(path[0], x), i / 2, path[1..])
  }

  /** From every node its path leads to the same top. */
  lemma {:induction false} PathsMeet<T, H>(f: Hashing<T, H>, level: seq<H>, i: nat)
    requires i < |level|
    ensures Climb(f, level[i], i, Siblings(f, level, i)) == Top(f, level)
    decreases |level|
  {
    if |level| > 1 {
      var path, next := Siblings(f, level, i), NextLevel(f, level);
      assert path[1..] == Siblings(f, next, i / 2);
      assert next[i / 2] == f.node(level[2 * (i / 2)], Partner(level, i / 2));
      PathsMeet(f, next, i / 2);
    }
  }
}
