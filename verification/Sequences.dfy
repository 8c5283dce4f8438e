/** Sequences of addresses and of page numbers. */
module Sequences {
  ghost predicate Distinct(s: seq<int>) {
    forall i, j :: 0 <= i < j < |s| ==> s[i] != s[j]
  }

  function InsertAt(s: seq<int>, k: int, a: int): seq<int>
    requires 0 <= k <= |s|
  {
    s[..k] + [a] + s[k..]
  }

  function RemoveAt(s: seq<int>, k: int): seq<int>
    requires 0 <= k < |s|
  {
    s[..k] + s[k + 1..]
  }

  /** Where the entries of a sequence go when entry `i` leaves. */
  function Kept(k: int, i: int): int {
    if k < i then k else k + 1
  }

  lemma {:induction false} RemovedAt(s: seq<int>, i: int)
    requires 0 <= i < |s| && Distinct(s)
    ensures forall k :: 0 <= k < |s| - 1 ==> RemoveAt(s, i)[k] == s[Kept(k, i)]
    ensures Distinct(RemoveAt(s, i))
    ensures forall p :: p in RemoveAt(s, i) <==> p in s && p != s[i]
  {
    var t := RemoveAt(s, i);
    forall p | p in s && p != s[i] ensures p in t {
      var j :| 0 <= j < |s| && s[j] == p;
      assert t[if j < i then j else j - 1] == p;
    }
    forall k | 0 <= k < |t| ensures t[k] in s && t[k] != s[i] {
    }
  }
}
