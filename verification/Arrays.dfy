/** The value-moving loops of the B-tree node, each a run of element swaps in place. */
module Arrays {
  import opened Entries

  method SwapValues(a: array<Entry>, i: nat, b: array<Entry>, j: nat)
    requires i < a.Length && j < b.Length
    modifies a, b
    ensures a != b ==> a[..] == old(a[..])[i := old(b[j])] && b[..] == old(b[..])[j := old(a[i])]
    ensures a == b ==> a[..] == old(a[..])[i := old(a[j])][j := old(a[i])]
  {
    a[i], b[j] := b[j], a[i];
  }

  /** for (j = n; j > i; --j) swap(j, j - 1): value n travels down to i. */
  method RotateUp(a: array<Entry>, i: nat, n: nat)
    requires i <= n < a.Length
    modifies a
    ensures a[..i] == old(a[..i]) && a[i] == old(a[n]) && a[i + 1..n + 1] == old(a[i..n])
  {
    var j := n;
    while j > i
      invariant i <= j <= n
      invariant a[..i] == old(a[..i])
      invariant forall t :: i <= t < j ==> a[t] == old(a[t])
      invariant a[j] == old(a[n])
      invariant forall t :: j < t <= n ==> a[t] == old(a[t - 1])
    {
      a[j], a[j - 1] := a[j - 1], a[j];
      j := j - 1;
    }
  }

  /** for (; i < n; ++i) swap(i, i + 1): value i travels up to n. */
  method RotateDown(a: array<Entry>, i: nat, n: nat)
    requires i <= n < a.Length
    modifies a
    ensures a[..i] == old(a[..i]) && a[i..n] == old(a[i + 1..n + 1])
  {
    var j := i;
    while j < n
      invariant i <= j <= n
      invariant a[..i] == old(a[..i])
      invariant forall t :: i <= t < j ==> a[t] == old(a[t + 1])
      invariant forall t :: j < t <= n ==> a[t] == old(a[t])
    {
      a[j], a[j + 1] := a[j + 1], a[j];
      j := j + 1;
    }
  }

  /** for (i = t; i < n; ++i) swap(i - t, i): values t.. move down to the front. */
  method ShiftDown(a: array<Entry>, t: nat, n: nat)
    requires 0 < t <= n <= a.Length
    modifies a
    ensures a[..n - t] == old(a[t..n])
  {
    var i := t;
    while i < n
      invariant t <= i <= n
      invariant forall j :: 0 <= j < i - t ==> a[j] == old(a[j + t])
      invariant forall j :: i <= j < n ==> a[j] == old(a[j])
    {
      a[i - t], a[i] := a[i], a[i - t];
      i := i + 1;
    }
  }

  /** for (i = n - 1; i >= 0; --i) swap(i, i + t): the first n values move up by t. */
  method ShiftUp(a: array<Entry>, t: nat, n: nat)
    requires 0 < t && n + t <= a.Length
    modifies a
    ensures a[t..n + t] == old(a[..n])
  {
    var i := n;
    while i > 0
      invariant 0 <= i <= n
      invariant forall j :: i <= j < n ==> a[j + t] == old(a[j])
      invariant forall j :: 0 <= j < i ==> a[j] == old(a[j])
    {
      i := i - 1;
      a[i], a[i + t] := a[i + t], a[i];
    }
  }

  /** for (k = 0; k < n; ++k) swap(a[i + k], b[j + k]) between two nodes. */
  method SwapRun(a: array<Entry>, i: nat, b: array<Entry>, j: nat, n: nat)
    requires a != b && i + n <= a.Length && j + n <= b.Length
    modifies a, b
    ensures a[..i] == old(a[..i]) && a[i..i + n] == old(b[j..j + n]) && a[i + n..] == old(a[i + n..])
    ensures b[..j] == old(b[..j]) && b[j..j + n] == old(a[i..i + n]) && b[j + n..] == old(b[j + n..])
  {
    var k := 0;
    while k < n
      invariant 0 <= k <= n
      invariant forall t :: 0 <= t < a.Length ==> a[t] == if i <= t < i + k then old(b[t - i + j]) else old(a[t])
      invariant forall t :: 0 <= t < b.Length ==> b[t] == if j <= t < j + k then old(a[t - j + i]) else old(b[t])
    {
      a[i + k], b[j + k] := b[j + k], a[i + k];
      k := k + 1;
    }
  }
}
