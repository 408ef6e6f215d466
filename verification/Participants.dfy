/**
 The lists of participants over whole runs of records: who is on a list in the end, and
 exactly when the records as they are read give the same list as the records in memory.
 */
module Participants {
  import opened Addresses
  import opened Records
  import opened WrittenForm
  import opened Ledger
  import opened LedgerInvariant
  import opened StoredLedger

  /** The list after a run; `resets` tells which records empty it. */
  function NotedAll(names: seq<Address>, resets: seq<bool>, rs: seq<Record>): seq<Address>
    requires |resets| == |rs|
  {
    if rs == [] then names
    else
      var n := |rs| - 1;
      Noted(NotedAll(names, resets[..n], rs[..n]), resets[n], rs[n])
  }

  function WrittenAll(rs: seq<Record>): (qs: seq<Record>)
    ensures |qs| == |rs|
  {
    seq(|rs|, i requires 0 <= i < |rs| => Written(rs[i]))
  }

  /** From record i on the list is not emptied. */
  predicate Kept(resets: seq<bool>, i: int) {
    forall k :: 0 <= i <= k < |resets| ==> !resets[k]
  }

  /** Some record that is not followed by a reset shows this name. */
  ghost predicate Shown(resets: seq<bool>, rs: seq<Record>, a: Address)
    requires |resets| == |rs|
  {
    exists i :: 0 <= i < |rs| && Kept(resets, i) && a in Signers(rs[i])
  }

  lemma KeptLonger(resets: seq<bool>, n: nat)
    requires |resets| == n + 1
    ensures forall i :: 0 <= i <= n ==> (Kept(resets, i) <==> !resets[n] && Kept(resets[..n], i))
  {
    forall i | 0 <= i <= n
      ensures Kept(resets, i) <==> !resets[n] && Kept(resets[..n], i)
    {
      if !resets[n] && Kept(resets[..n], i) {
        forall k | i <= k < |resets|
          ensures !resets[k]
        {
          assert k < n ==> resets[k] == resets[..n][k];
        }
      }
      if Kept(resets, i) {
        forall k | i <= k < n
          ensures !resets[..n][k]
        {
          assert resets[k] == resets[..n][k];
        }
      }
    }
  }

  lemma ShownLonger(resets: seq<bool>, rs: seq<Record>, n: nat, a: Address)
    requires |resets| == |rs| == n + 1
    ensures Shown(resets, rs, a) <==> !resets[n] && (Shown(resets[..n], rs[..n], a) || a in Signers(rs[n]))
  {
    hide Signers;
    KeptLonger(resets, n);
    if Shown(resets, rs, a) {
      var i :| 0 <= i < |rs| && Kept(resets, i) && a in Signers(rs[i]);
      assert i < n ==> rs[..n][i] == rs[i] && Kept(resets[..n], i);
    }
    if !resets[n] && Shown(resets[..n], rs[..n], a) {
      var i :| 0 <= i < n && Kept(resets[..n], i) && a in Signers(rs[..n][i]);
      assert rs[..n][i] == rs[i] && Kept(resets, i);
    }
    if !resets[n] && a in Signers(rs[n]) {
      assert Kept(resets, n);
    }
  }

  /** Who is on a list after a run: those who were on it before, when no record emptied it,
      and the signers of the records after the last one that did. */
  lemma {:induction false} NotedAllExact(names: seq<Address>, resets: seq<bool>, rs: seq<Record>)
    requires |resets| == |rs| && NamesOk(names)
    ensures NamesOk(NotedAll(names, resets, rs))
    ensures forall a :: a in NotedAll(names, resets, rs)
              <==> (Kept(resets, 0) && a in names) || (IsSignatureAddress(a) && Shown(resets, rs, a))
  {
    hide IsSignatureAddress, Signers, Shown;
    if rs == [] {
      assert forall a :: !Shown(resets, rs, a) by { NothingShown(resets, rs); }
    } else {
      var n := |rs| - 1;
      NotedAllExact(names, resets[..n], rs[..n]);
      KeptLonger(resets, n);
      var before := NotedAll(names, resets[..n], rs[..n]);
      NotedOk(before, resets[n], rs[n]);
      AddSignersOk(before, Signers(rs[n]));
      forall a
        ensures a in NotedAll(names, resets, rs)
          <==> (Kept(resets, 0) && a in names) || (IsSignatureAddress(a) && Shown(resets, rs, a))
      {
        ShownLonger(resets, rs, n, a);
      }
    }
  }

  lemma NothingShown(resets: seq<bool>, rs: seq<Record>)
    requires |resets| == |rs| == 0
    ensures forall a :: !Shown(resets, rs, a)
  {
  }

  /** Every signing address a record shows without writing it was on the list before, or is
      written by a record that is not followed by a reset. Records followed by a reset do not
      matter. */
  ghost predicate NamesReadOver(names: seq<Address>, resets: seq<bool>, rs: seq<Record>)
    requires |resets| == |rs|
  {
    forall i, a :: 0 <= i < |rs| && Kept(resets, i) && a in UnwrittenSigners(rs[i]) && IsSignatureAddress(a) ==>
      (Kept(resets, 0) && a in names) || Shown(resets, WrittenAll(rs), a)
  }

  /** The list over the records as read is the list over the records in memory, if and only if
      that holds. */
  lemma NotedAllIff(names: seq<Address>, resets: seq<bool>, rs: seq<Record>)
    requires |resets| == |rs| && NamesOk(names)
    ensures NotedAll(names, resets, rs) == NotedAll(names, resets, WrittenAll(rs)) <==> NamesReadOver(names, resets, rs)
  {
    hide IsSignatureAddress, Signers, UnwrittenSigners, Written, NotedAll, Shown;
    var qs := WrittenAll(rs);
    NotedAllExact(names, resets, rs);
    NotedAllExact(names, resets, qs);
    forall a
      ensures Shown(resets, rs, a) <==> Shown(resets, qs, a) || Unread(resets, rs, a)
    {
      ShownSplit(resets, rs, a);
    }
    UnreadIff(names, resets, rs);
    if NamesReadOver(names, resets, rs) {
      AscendingUnique(NotedAll(names, resets, rs), NotedAll(names, resets, qs));
    }
  }

  ghost predicate Unread(resets: seq<bool>, rs: seq<Record>, a: Address)
    requires |resets| == |rs|
  {
    exists i :: 0 <= i < |rs| && Kept(resets, i) && a in UnwrittenSigners(rs[i])
  }

  lemma UnreadIff(names: seq<Address>, resets: seq<bool>, rs: seq<Record>)
    requires |resets| == |rs|
    ensures NamesReadOver(names, resets, rs)
       <==> forall a :: Unread(resets, rs, a) && IsSignatureAddress(a) ==>
              (Kept(resets, 0) && a in names) || Shown(resets, WrittenAll(rs), a)
  {
    hide IsSignatureAddress, UnwrittenSigners, Shown, WrittenAll;
  }

  lemma ShownSplit(resets: seq<bool>, rs: seq<Record>, a: Address)
    requires |resets| == |rs|
    ensures Shown(resets, rs, a) <==> Shown(resets, WrittenAll(rs), a) || Unread(resets, rs, a)
  {
    hide Signers, UnwrittenSigners, Written;
    var qs := WrittenAll(rs);
    forall i | 0 <= i < |rs|
      ensures a in Signers(rs[i]) <==> a in UnwrittenSigners(rs[i]) || a in Signers(qs[i])
    {
      SignersSplit(rs[i], a);
    }
    if Shown(resets, qs, a) {
      var i :| 0 <= i < |qs| && Kept(resets, i) && a in Signers(qs[i]);
      assert a in Signers(rs[i]);
    }
    if Unread(resets, rs, a) {
      var i :| 0 <= i < |rs| && Kept(resets, i) && a in UnwrittenSigners(rs[i]);
      assert a in Signers(rs[i]);
    }
    if Shown(resets, rs, a) {
      var i :| 0 <= i < |rs| && Kept(resets, i) && a in Signers(rs[i]);
      assert a in UnwrittenSigners(rs[i]) || a in Signers(qs[i]);
    }
  }
}
