/**
 Addresses are strings compared byte by byte. The kinds of protocol address are those of
 src/protocol/records.cpp and src/crypto/signature.cpp.
 */
module Addresses {
  type Address = string

  /** Lexicographic order, the order of std::string. */
  predicate Less(a: Address, b: Address) {
    if b == "" then false
    else if a == "" then true
    else a[0] < b[0] || (a[0] == b[0] && Less(a[1..], b[1..]))
  }

  lemma {:induction false} LessIrreflexive(a: Address)
    ensures !Less(a, a)
  {
    if a != "" { LessIrreflexive(a[1..]); }
  }

  lemma {:induction false} LessTransitive(a: Address, b: Address, c: Address)
    requires Less(a, b) && Less(b, c)
    ensures Less(a, c)
  {
    if a != "" && a[0] == b[0] && b[0] == c[0] {
      LessTransitive(a[1..], b[1..], c[1..]);
    }
  }

  lemma {:induction false} LessTotal(a: Address, b: Address)
    ensures Less(a, b) || a == b || Less(b, a)
  {
    if a != "" && b != "" {
      LessTotal(a[1..], b[1..]);
      if a[0] == b[0] && a[1..] == b[1..] {
        assert a == [a[0]] + a[1..] && b == [b[0]] + b[1..];
      }
    }
  }

  /** An ML-DSA-65 address: "pcpq1_" and forty lower-case hexadecimal digits. */
  predicate IsSignatureAddress(a: Address) {
    && |a| == 46 && a[..6] == "pcpq1_"
    && forall i :: 6 <= i < |a| ==> '0' <= a[i] <= '9' || 'a' <= a[i] <= 'f'
  }

  /** A canonical validator set: non-empty, sorted, free of duplicates, all able to sign. */
  predicate CanonicalSet(validators: seq<Address>) {
    |validators| >= 1 && Ascending(validators) && forall v :: v in validators ==> IsSignatureAddress(v)
  }

  /** Each element is greater than the one before it: sorted and free of duplicates. */
  predicate Ascending(s: seq<Address>) {
    forall i :: 0 < i < |s| ==> Less(s[i - 1], s[i])
  }

  lemma {:induction false} AscendingOrders(s: seq<Address>, i: nat, j: nat)
    requires Ascending(s) && i < j < |s|
    ensures Less(s[i], s[j]) && s[i] != s[j]
    decreases j
  {
    if i + 1 < j {
      AscendingOrders(s, i, j - 1);
      LessTransitive(s[i], s[j - 1], s[j]);
    }
    LessIrreflexive(s[i]);
  }

  ghost function Elements(s: seq<Address>): set<Address> {
    set a | a in s
  }

  lemma {:induction false} AscendingSize(s: seq<Address>)
    requires Ascending(s)
    ensures |Elements(s)| == |s|
  {
    if s == [] {
      assert Elements(s) == {};
    } else {
      var init, last := s[..|s| - 1], s[|s| - 1];
      AscendingSize(init);
      LastIsNew(s);
      ElementsAppend(init, last);
      assert s == init + [last];
    }
  }

  lemma LastIsNew(s: seq<Address>)
    requires Ascending(s) && s != []
    ensures s[|s| - 1] !in s[..|s| - 1]
  {
    var last := s[|s| - 1];
    if last in s[..|s| - 1] {
      var i :| 0 <= i < |s| - 1 && s[i] == last;
      AscendingOrders(s, i, |s| - 1);
      assert false;
    }
  }

  lemma ElementsAppend(s: seq<Address>, a: Address)
    ensures Elements(s + [a]) == Elements(s) + {a}
  {
  }
}
