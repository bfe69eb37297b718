/** Sequences without repetition, and the numbers below a bound. */
module Sequences {

  ghost predicate Distinct<T>(s: seq<T>) {
    forall i, j :: 0 <= i < j < |s| ==> s[i] != s[j]
  }

  ghost predicate Under(s: seq<nat>, n: nat) {
    forall i :: 0 <= i < |s| ==> s[i] < n
  }

  function Upto(n: nat): (s: seq<nat>)
    ensures |s| == n && forall i :: 0 <= i < n ==> s[i] == i
  {
    seq(n, i => i)
  }

  lemma UptoMore(n: nat)
    ensures Upto(n + 1) == Upto(n) + [n] && multiset(Upto(n + 1)) == multiset(Upto(n)) + multiset{n}
  {
    assert Upto(n + 1) == Upto(n) + [n];
  }

  lemma {:induction false} UptoOnce(n: nat, x: nat)
    ensures multiset(Upto(n))[x] == if x < n then 1 else 0
  {
    if n == 0 {
      assert Upto(0) == [];
    } else {
      UptoOnce(n - 1, x);
      UptoMore(n - 1);
    }
  }

  lemma {:induction false} DistinctOnce(s: seq<nat>, x: nat)
    requires Distinct(s)
    ensures multiset(s)[x] == if x in s then 1 else 0
  {
    if s != [] {
      var t := s[..|s| - 1];
      assert s == t + [s[|s| - 1]];
      DistinctOnce(t, x);
    }
  }

  function Range(n: nat): (r: set<nat>)
    ensures forall i :: i in r <==> 0 <= i < n
    ensures |r| == n
  {
    if n == 0 then {} else Range(n - 1) + {n - 1}
  }

  function Elements(s: seq<nat>): (r: set<nat>)
    ensures forall x :: x in r <==> x in s
    ensures Distinct(s) ==> |r| == |s|
  {
    if s == [] then {} else
      assert s == s[..|s| - 1] + [s[|s| - 1]];
      Elements(s[..|s| - 1]) + {s[|s| - 1]}
  }

  lemma TakeJoined<T>(s: seq<T>, i: nat, j: nat)
    requires i <= j <= |s|
    ensures s[..j] == s[..i] + s[i..j]
  {
  }

  lemma Associates<T>(s: seq<T>, t: seq<T>, u: seq<T>)
    ensures s + (t + u) == s + t + u
  {
  }

  /** What two sequences have in common from i on they have in common in any stretch from there. */
  lemma SameStretch<T>(s: seq<T>, t: seq<T>, i: nat, j: nat, k: nat)
    requires i <= |s| == |t| && s[i..] == t[i..] && i <= j <= k <= |s|
    ensures s[j..k] == t[j..k]
  {
    forall x | j <= x < k
      ensures s[x] == t[x]
    {
      assert s[x] == s[i..][x - i] && t[x] == t[i..][x - i];
    }
  }

  lemma SameTake<T>(s: seq<T>, t: seq<T>, i: nat, j: nat)
    requires j <= i <= |s| && i <= |t| && s[..i] == t[..i]
    ensures s[..j] == t[..j]
  {
    assert s[..j] == s[..i][..j] == t[..i][..j] == t[..j];
  }

  /** The first i elements of u written over s from place at on. */
  function Overlaid<T>(s: seq<T>, at: nat, u: seq<T>, i: nat): (r: seq<T>)
    requires i <= |u| && at + i <= |s|
    ensures |r| == |s|
  {
    s[..at] + u[..i] + s[at + i..]
  }

  lemma OverlaidMore<T>(s: seq<T>, at: nat, u: seq<T>, i: nat)
    requires i < |u| && at + i < |s|
    ensures Overlaid(s, at, u, i)[at + i := u[i]] == Overlaid(s, at, u, i + 1)
  {
  }

  lemma OverlaidBehind<T>(s: seq<T>, at: nat, u: seq<T>, i: nat)
    requires i <= |u| && at + i < |s|
    ensures Overlaid(s, at, u, i)[at + i] == s[at + i]
  {
  }

  lemma OverlaidParts<T>(s: seq<T>, at: nat, u: seq<T>)
    requires at + |u| <= |s|
    ensures
      var r := Overlaid(s, at, u, |u|);
      r[..at] == s[..at] && r[at..at + |u|] == u && r[at + |u|..] == s[at + |u|..]
    ensures Overlaid(s, at, u, 0) == s
  {
  }
}
