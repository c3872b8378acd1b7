/** Linked lists as sequences of node names without repetition. */
module Sequences {
  import opened Basics

  datatype Pointer = Null | To(id: nat)

  function HeadOf(ids: seq<nat>): Pointer { if ids == [] then Null else To(ids[0]) }

  /** The head of a list after x joined it: a list that has a head keeps it. */
  function NewHead(head: Pointer, x: nat): Pointer { if head.Null? then To(x) else head }

  /** The nodes `s` are linked in this order through `next`, and the last one ends the list. */
  ghost predicate Chained(next: map<nat, Pointer>, s: seq<nat>) {
    forall i {:trigger s[i]} :: 0 <= i < |s| ==>
      s[i] in next && next[s[i]] == if i + 1 < |s| then To(s[i + 1]) else Null
  }

  lemma AppendDistinct<T>(s: seq<T>, x: T)
    requires Distinct(s) && x !in s
    ensures Distinct(s + [x])
  {
  }

  lemma PushDistinct<T>(s: seq<T>, x: T)
    requires Distinct(s) && x !in s
    ensures Distinct([x] + s)
  {
  }

  lemma TailDistinct<T>(s: seq<T>)
    requires Distinct(s) && s != []
    ensures Distinct(s[1..]) && forall x :: x in s[1..] <==> x in s && x != s[0]
  {
  }

  lemma DistinctAt<T>(s: seq<T>, i: nat, j: nat)
    requires Distinct(s) && i < |s| && j < |s|
    ensures s[i] == s[j] ==> i == j
  {
  }

  function Inserted<T>(s: seq<T>, k: nat, x: T): seq<T>
    requires k < |s|
  {
    s[..k + 1] + [x] + s[k + 1..]
  }

  function Removed<T>(s: seq<T>, k: nat): seq<T>
    requires k < |s|
  {
    s[..k] + s[k + 1..]
  }

  lemma InsertedElements<T>(s: seq<T>, k: nat, x: T)
    requires k < |s|
    ensures |Inserted(s, k, x)| == |s| + 1
    ensures forall i :: 0 <= i <= |s| ==> Inserted(s, k, x)[i] == if i <= k then s[i] else if i == k + 1 then x else s[i - 1]
  {
  }

  lemma InsertedDistinct<T>(s: seq<T>, k: nat, x: T)
    requires k < |s| && Distinct(s) && x !in s
    ensures Distinct(Inserted(s, k, x))
  {
    var r := Inserted(s, k, x);
    InsertedElements(s, k, x);
    hide Inserted;
    forall i, j | 0 <= i < j < |r|
      ensures r[i] != r[j]
    {
    }
  }

  lemma RemovedElements<T>(s: seq<T>, k: nat)
    requires k < |s|
    ensures |Removed(s, k)| == |s| - 1
    ensures forall i :: 0 <= i < |s| - 1 ==> Removed(s, k)[i] == if i < k then s[i] else s[i + 1]
  {
  }

  lemma RemovedDistinct<T>(s: seq<T>, k: nat)
    requires k < |s| && Distinct(s)
    ensures Distinct(Removed(s, k))
  {
    var r := Removed(s, k);
    RemovedElements(s, k);
    hide Removed;
  }

  lemma RemovedAt<T>(s: seq<T>, k: nat, i: nat)
    requires k < |s| && i < |s| - 1
    ensures |Removed(s, k)| == |s| - 1 && Removed(s, k)[i] == if i < k then s[i] else s[i + 1]
  {
  }

  lemma RemovedMembers<T>(s: seq<T>, k: nat, x: T)
    requires k < |s| && Distinct(s)
    ensures x in Removed(s, k) <==> x in s && x != s[k]
  {
    hide Distinct;
    RemovedElements(s, k);
    if x in Removed(s, k) {
      var j :| 0 <= j < |Removed(s, k)| && Removed(s, k)[j] == x;
      DistinctAt(s, if j < k then j else j + 1, k);
    }
    if x in s && x != s[k] {
      var j :| 0 <= j < |s| && s[j] == x;
      var i := if j < k then j else j - 1;
      RemovedAt(s, k, i);
      assert Removed(s, k)[i] in Removed(s, k);
    }
  }

  ghost function Elements<T>(s: seq<T>): set<T> { set x | x in s }

  lemma ElementsNext<T>(s: seq<T>, n: nat)
    requires n < |s|
    ensures Elements(s[..n + 1]) == Elements(s[..n]) + {s[n]}
  {
    assert s[..n + 1] == s[..n] + [s[n]];
  }
}
