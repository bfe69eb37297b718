/** The object pool: a free list threaded through an array of nodes, with the list head behind the last node. */
module Pools {
  import opened Sequences

  const NONE: nat := 0xFFFF_FFFF_FFFF_FFFF
  const ADDRESSES := 0x1_0000_0000_0000_0000
  const WRAP32 := 0x1_0000_0000

  function Times(a: nat, b: nat): nat {
    a * b
  }

  lemma DivideBack(i: nat, n: nat)
    requires 0 < n
    ensures Times(i, n) / n == i
  {
    var q, m := Times(i, n) / n, Times(i, n) % n;
    assert Times(i, n) == q * n + m;
    assert (i - q) * n == m;
    if i > q { Grows(i - q, n); }
    if i < q { Grows(q - i, n); }
  }

  lemma Grows(a: nat, n: nat)
    requires 1 <= a
    ensures a * n >= n
  {
  }

  /** The node behind place i of the free list. */
  function Link(frees: seq<nat>, i: int): nat {
    if 0 <= i + 1 < |frees| then frees[i + 1] else NONE
  }

  /** next threads the list frees from its head node n, and marks every node that is not in the list. */
  ghost predicate Threaded(next: seq<nat>, n: nat, frees: seq<nat>) {
    && |next| == n + 1 && Distinct(frees) && Under(frees, n)
    && next[n] == Link(frees, -1)
    && (forall i :: 0 <= i < |frees| ==> next[frees[i]] == Link(frees, i))
    && (forall x :: 0 <= x < n && x !in frees ==> next[x] == NONE)
  }

  lemma ThreadedAt(next: seq<nat>, n: nat, frees: seq<nat>, i: int)
    requires Threaded(next, n, frees) && -1 <= i < |frees|
    ensures |next| == n + 1
    ensures var x := if i < 0 then n else frees[i]; x <= n && next[x] == Link(frees, i) && (0 <= i ==> x < n)
  {
  }

  /** The list is determined by the links: what is threaded is threaded once. */
  lemma {:induction false} ThreadedOnce(next: seq<nat>, n: nat, a: seq<nat>, b: seq<nat>, k: nat)
    requires n < NONE && Threaded(next, n, a) && Threaded(next, n, b) && k <= |a|
    ensures k <= |b| && a[..k] == b[..k]
  {
    hide Threaded;
    if k > 0 {
      ThreadedOnce(next, n, a, b, k - 1);
      if k > 1 {
        assert a[k - 2] == a[..k - 1][k - 2] == b[..k - 1][k - 2] == b[k - 2];
      }
      ThreadedAt(next, n, a, k - 2);
      ThreadedAt(next, n, b, k - 2);
      ThreadedAt(next, n, a, k - 1);
      assert a[..k] == a[..k - 1] + [a[k - 1]];
      assert b[..k] == b[..k - 1] + [b[k - 1]];
    }
  }

  /** The mark that release looks at belongs to the objects handed out, and to one more: the last of the free list. */
  lemma MarkMeans(next: seq<nat>, n: nat, frees: seq<nat>, x: nat)
    requires n < NONE && Threaded(next, n, frees) && x < n
    ensures next[x] == NONE <==> x !in frees || x == frees[|frees| - 1]
  {
    if x in frees {
      var i :| 0 <= i < |frees| && frees[i] == x;
      assert next[frees[i]] == Link(frees, i);
      assert i + 1 < |frees| ==> frees[i + 1] < n;
    }
  }

  /** A pool of one object that is free: releasing it again would pass the test. */
  lemma DoubleReleaseUnseen()
    ensures Threaded([NONE, 0], 1, [0]) && 0 in [0] && [NONE, 0][0] == NONE
  {
    assert [0][0] == 0;
  }

  /** Taking the first object off the list. */
  lemma TakenThreaded(next: seq<nat>, n: nat, frees: seq<nat>)
    requires Threaded(next, n, frees) && frees != []
    ensures Threaded(next[n := next[frees[0]]][frees[0] := NONE], n, frees[1..])
  {
    var next' := next[n := next[frees[0]]][frees[0] := NONE];
    assert frees == [frees[0]] + frees[1..];
    forall x | 0 <= x < n && x !in frees[1..]
      ensures next'[x] == NONE
    {
    }
    assert Link(frees[1..], -1) == Link(frees, 0);
    forall i | 0 <= i < |frees[1..]|
      ensures next'[frees[1..][i]] == Link(frees[1..], i)
    {
      assert frees[1..][i] == frees[i + 1];
    }
  }

  /** Putting object x on the list. */
  lemma PutThreaded(next: seq<nat>, n: nat, frees: seq<nat>, x: nat)
    requires Threaded(next, n, frees) && x < n && x !in frees
    ensures Threaded(next[x := next[n]][n := x], n, [x] + frees)
  {
    var next', frees' := next[x := next[n]][n := x], [x] + frees;
    assert |next'| == n + 1 && Distinct(frees') && Under(frees', n) && next'[n] == Link(frees', -1);
    forall i | 0 <= i < |frees'|
      ensures next'[frees'[i]] == Link(frees', i)
    {
      PutLink(next, n, frees, x, i);
    }
    forall y | 0 <= y < n && y !in frees'
      ensures next'[y] == NONE
    {
      assert y != x && y !in frees by { assert frees'[0] == x; }
    }
  }

  lemma PutLink(next: seq<nat>, n: nat, frees: seq<nat>, x: nat, i: nat)
    requires Threaded(next, n, frees) && x < n && x !in frees && i <= |frees|
    ensures |next| == n + 1 && ([x] + frees)[i] < n
    ensures next[x := next[n]][n := x][([x] + frees)[i]] == Link([x] + frees, i)
  {
    hide Threaded;
    ThreadedAt(next, n, frees, i - 1);
    if i > 0 {
      var y := frees[i - 1];
      assert ([x] + frees)[i] == y && y in frees;
    }
  }

  lemma ThreadedHead(next: seq<nat>, n: nat, frees: seq<nat>)
    requires Threaded(next, n, frees)
    ensures |next| == n + 1 && Distinct(frees) && Under(frees, n) && (frees != [] ==> next[n] == frees[0] < n)
  {
    assert next[n] == Link(frees, -1);
  }

  lemma UptoThreaded(next: seq<nat>, n: nat)
    requires 1 <= n && |next| == n + 1 && next[n] == 0 && next[n - 1] == NONE
    requires forall j :: 0 <= j < n - 1 ==> next[j] == j + 1
    ensures Threaded(next, n, Upto(n))
  {
    var frees := Upto(n);
    forall i | 0 <= i < |frees|
      ensures next[frees[i]] == Link(frees, i)
    {
    }
    forall x | 0 <= x < n
      ensures x in frees
    {
      assert frees[x] == x;
    }
  }

  datatype Use = Get | Release(x: nat)

  /** A stack of free objects after some calls: get pops, release pushes. */
  ghost function StackAfter(n: nat, frees: seq<nat>, uses: seq<Use>): seq<nat> {
    if uses == [] then frees else
      var s := StackAfter(n, frees, uses[..|uses| - 1]);
      match uses[|uses| - 1]
      case Get => if s == [] then [] else s[1..]
      case Release(x) => [x] + s
  }

  ghost predicate OutIn(n: nat, frees: seq<nat>, x: nat) {
    x < n && x !in frees
  }

  /** Only objects that are out are released. */
  ghost predicate Legal(n: nat, frees: seq<nat>, uses: seq<Use>) {
    forall i :: 0 <= i < |uses| && uses[i].Release? ==> OutIn(n, StackAfter(n, frees, uses[..i]), uses[i].x)
  }

  class Pool {
    const count: nat
    const objectSize: nat
    const cacheData: nat
    const next: array<nat>
    const objects: array<nat>
    var nbFrees: nat
    ghost var frees: seq<nat>

    ghost predicate Valid()
      reads this, next, objects
    {
      && 1 <= count < WRAP32 && 0 < objectSize && 0 < cacheData && cacheData + Times(count, objectSize) < ADDRESSES
      && next.Length == objects.Length == count + 1 && next != objects && nbFrees == |frees|
      && Threaded(next[..], count, frees)
      && forall i :: 0 <= i < count ==> objects[i] == Address(i)
    }

    function Address(i: nat): nat {
      cacheData + Times(i, objectSize)
    }

    lemma AddressIs(i: nat)
      ensures Address(i) == cacheData + Times(i, objectSize)
    {
    }

    /** The objects that have been handed out. */
    ghost function Out(): set<nat>
      reads this
    {
      set i | 0 <= i < count && i !in frees
    }

    constructor (count: nat, objectSize: nat, cacheData: nat)
      requires 1 <= count < WRAP32 && 0 < objectSize && 0 < cacheData
      requires cacheData + Times(count, objectSize) < ADDRESSES
      ensures Valid() && frees == Upto(count) && Out() == {} && this.count == count && this.objectSize == objectSize
      ensures this.cacheData == cacheData
      ensures fresh(next) && fresh(objects)
    {
      hide Times, Threaded;
      this.count, this.objectSize, this.cacheData := count, objectSize, cacheData;
      this.next, this.objects := new nat[count + 1](_ => 0), new nat[count + 1](_ => 0);
      this.nbFrees, this.frees := count, Upto(count);
      new;
      var i := 0;
      while i < count
        invariant 0 <= i <= count && nbFrees == count && frees == Upto(count)
        invariant forall j :: 0 <= j < i ==> next[j] == j + 1 && objects[j] == Address(j)
      {
        next[i] := i + 1;
        objects[i] := cacheData + Times(i, objectSize);
        i := (i + 1) % WRAP32;
      }
      next[count - 1] := NONE;
      next[count] := 0;
      UptoThreaded(next[..], count);
      forall i | 0 <= i < count
        ensures i in frees
      {
        assert frees[i] == i;
      }
    }

    /** Hands out the object freed last, or 0 (no object) when none is free. */
    method Get() returns (o: nat)
      requires Valid()
      modifies this`nbFrees, this`frees, next
      ensures Valid()
      ensures if old(frees) == [] then o == 0 && frees == [] else
        o == Address(old(frees)[0]) && o != 0 && frees == old(frees)[1..] && old(frees)[0] !in old(Out())
          && Out() == old(Out()) + {old(frees)[0]}
    {
      hide Times, Threaded;
      ThreadedHead(next[..], count, frees);
      if nbFrees == 0 {
        return 0;
      }
      TakenThreaded(next[..], count, frees);
      ghost var was: seq<nat> := next[..];
      assert was[count] == frees[0];
      var free := next[count];
      next[count] := next[free];
      next[free] := NONE;
      nbFrees := nbFrees - 1;
      assert next[..] == was[count := was[frees[0]]][frees[0] := NONE];
      o := objects[free];
      AddressPositive(free);
      frees := frees[1..];
      OutAfterGet(old(frees));
    }

    lemma AddressPositive(i: nat)
      requires 0 < cacheData
      ensures Address(i) > 0
    {
    }

    lemma OutAfterGet(was: seq<nat>)
      requires was != [] && Distinct(was) && frees == was[1..] && was[0] < count
      ensures Out() == (set i | 0 <= i < count && i !in was) + {was[0]}
    {
      assert was == [was[0]] + was[1..];
    }

    /** Takes back an object that was handed out. */
    method Release(o: nat, ghost i: nat)
      requires Valid() && i in Out() && o == Address(i)
      modifies this`nbFrees, this`frees, next
      ensures Valid() && frees == [i] + old(frees) && Out() == old(Out()) - {i}
    {
      hide Times, Threaded;
      DivideBack(i, objectSize);
      var idx := (o - cacheData) / objectSize;
      assert idx == i;
      MarkMeans(next[..], count, frees, i);
      assert idx < count && next[idx] == NONE;
      PutThreaded(next[..], count, frees, i);
      ghost var was: seq<nat> := next[..];
      next[idx] := next[count];
      next[count] := idx;
      assert next[..] == was[i := was[count]][count := i];
      nbFrees := nbFrees + 1;
      frees := [i] + frees;
      OutAfterRelease(old(frees), i);
    }

    lemma OutAfterRelease(was: seq<nat>, i: nat)
      requires frees == [i] + was
      ensures Out() == (set j | 0 <= j < count && j !in was) - {i}
    {
    }

    /** What the first calls of a run gave: each get the object on top of the stack at that time. */
    ghost predicate Gave(was: seq<nat>, uses: seq<Use>, objects: seq<nat>) {
      |objects| <= |uses| && forall i :: 0 <= i < |objects| && uses[i].Get? ==>
        objects[i] == Top(StackAfter(count, was, uses[..i]))
    }

    function Top(s: seq<nat>): nat {
      if s == [] then 0 else Address(s[0])
    }

    lemma GaveMore(was: seq<nat>, uses: seq<Use>, objects: seq<nat>, o: nat)
      requires Gave(was, uses, objects) && |objects| < |uses|
      requires uses[|objects|].Get? ==> o == Top(StackAfter(count, was, uses[..|objects|]))
      ensures Gave(was, uses, objects + [o])
    {
    }

    /** Over every run of calls that releases only objects that are out, the pool is a stack of free objects, as stacks
        shows it before, between and after the calls: get pops, release pushes. */
    method Run(uses: seq<Use>) returns (objects: seq<nat>, ghost stacks: seq<seq<nat>>)
      requires Valid() && Legal(count, frees, uses)
      modifies this`nbFrees, this`frees, next
      ensures Valid() && |objects| == |uses| && |stacks| == |uses| + 1
      ensures stacks[0] == old(frees) && stacks[|uses|] == frees
      ensures forall i {:trigger uses[i]} :: 0 <= i < |uses| ==>
        match uses[i]
        case Get =>
          if stacks[i] == [] then objects[i] == 0 && stacks[i + 1] == [] else
            objects[i] == Address(stacks[i][0]) && stacks[i + 1] == stacks[i][1..]
        case Release(x) => stacks[i + 1] == [x] + stacks[i]
    {
      hide Valid, Times, Gave, Legal;
      objects := [];
      var i := 0;
      assert uses[..0] == [];
      GaveNone(frees, uses);
      while i < |uses|
        invariant 0 <= i <= |uses| && |objects| == i && Valid() && frees == StackAfter(count, old(frees), uses[..i])
        invariant Gave(old(frees), uses, objects)
      {
        assert uses[..i + 1][..i] == uses[..i];
        var o := 0;
        match uses[i] {
          case Get =>
            o := Get();
          case Release(x) =>
            LegalAt(old(frees), uses, i);
            AddressIs(x);
            Release(cacheData + Times(x, objectSize), x);
        }
        GaveMore(old(frees), uses, objects, o);
        objects := objects + [o];
        i := i + 1;
      }
      assert uses[..|uses|] == uses;
      stacks := seq(|uses| + 1, i requires 0 <= i <= |uses| => StackAfter(count, old(frees), uses[..i]));
      StacksMean(old(frees), uses, objects, stacks);
    }

    lemma StacksMean(was: seq<nat>, uses: seq<Use>, objects: seq<nat>, stacks: seq<seq<nat>>)
      requires |objects| == |uses| && Gave(was, uses, objects) && |stacks| == |uses| + 1
      requires forall i :: 0 <= i <= |uses| ==> stacks[i] == StackAfter(count, was, uses[..i])
      ensures stacks[0] == was
      ensures forall i {:trigger uses[i]} :: 0 <= i < |uses| ==>
        match uses[i]
        case Get =>
          if stacks[i] == [] then objects[i] == 0 && stacks[i + 1] == [] else
            objects[i] == Address(stacks[i][0]) && stacks[i + 1] == stacks[i][1..]
        case Release(x) => stacks[i + 1] == [x] + stacks[i]
    {
      hide Address;
      assert uses[..0] == [];
      forall i | 0 <= i < |uses|
        ensures uses[i].Get? ==> objects[i] == Top(stacks[i])
        ensures
          stacks[i + 1] ==
            if uses[i].Release? then [uses[i].x] + stacks[i] else if stacks[i] == [] then [] else stacks[i][1..]
      {
        assert uses[..i + 1][..i] == uses[..i] && uses[..i + 1][i] == uses[i];
      }
    }

    lemma GaveNone(was: seq<nat>, uses: seq<Use>)
      ensures Gave(was, uses, [])
    {
    }

    lemma LegalAt(was: seq<nat>, uses: seq<Use>, i: nat)
      requires Legal(count, was, uses) && i < |uses| && uses[i].Release?
      ensures uses[i].x < count && uses[i].x !in StackAfter(count, was, uses[..i])
    {
    }

    /** Every object is either free or handed out. */
    lemma Conserved()
      requires Valid()
      ensures nbFrees + |Out()| == count
    {
      OutSize(frees, count);
    }
  }

  lemma OutSize(s: seq<nat>, n: nat)
    requires Distinct(s) && Under(s, n)
    ensures |s| + |set i | 0 <= i < n && i !in s| == n
  {
    var taken, out := Elements(s), set i | 0 <= i < n && i !in s;
    forall x | x in taken
      ensures x in Range(n)
    {
    }
    assert out !! taken && out + taken == Range(n);
    assert |out + taken| == |out| + |taken|;
  }
}
