module Trees {
  import opened Entries
  import opened Weaving
  import opened Arrays
  import opened Sequences

  class Node {
    const leaf: bool
    const maxCount: nat
    const values: array<Entry>
    const children: array<Node?>
    var position: nat
    var count: nat
    var parent: Node?
    var rightmost: Node?
    var size: int

    constructor (leaf: bool, maxCount: nat, parent: Node?)
      ensures Built(this) && this.leaf == leaf && this.maxCount == maxCount
      ensures this.parent == parent && position == 0 && count == 0
      ensures fresh(values) && fresh(children)
    {
      this.leaf, this.maxCount := leaf, maxCount;
      this.values := new Entry[maxCount](_ => BLANK);
      this.children := new Node?[if leaf then 0 else maxCount + 1](_ => null);
      this.position, this.count, this.parent := 0, 0, parent;
      this.rightmost, this.size := null, 0;
    }

    method SetChild(i: nat, c: Node)
      requires i < children.Length
      modifies children, c`parent, c`position
      ensures children[..] == old(children[..])[i := c]
      ensures c.parent == this && c.position == i
    {
      children[i] := c;
      c.parent := this;
      c.position := i;
    }

    /** Inserts x at position i; an internal node opens the gap i + 1 in its children. */
    method InsertValue(i: nat, x: Entry, ghost ks: seq<Node>)
      requires Built(this) && i <= count < maxCount
      requires if leaf then ks == [] else |ks| == count + 1 && children[..count + 1] == ks && Distinct(ks)
      modifies values, children, `count, ks`position
      ensures count == old(count) + 1
      ensures values[..count] == Insert(old(values[..count]), i, x)
      ensures !leaf ==> children[..i + 1] == ks[..i + 1] && children[i + 2..count + 1] == ks[i + 1..]
      ensures forall j :: 0 <= j < |ks| ==> ks[j].position == if j <= i then old(ks[j].position) else j + 1
    {
      ghost var a := values[..];
      values[count] := x;
      assert values[..] == a[count := x];
      RotateUp(values, i, count);
      InsertRotated(values[..], a, i, count, x);
      hide Insert, Distinct;
      count := count + 1;
      if !leaf {
        OpenChild(i + 1, ks);
      }
    }

    method OpenChild(i: nat, ghost ks: seq<Node>)
      requires Built(this) && !leaf && 0 < i <= count <= maxCount
      requires |ks| == count && children[..count] == ks && Distinct(ks)
      modifies children, ks`position
      ensures children[..i] == ks[..i] && children[i] == null && children[i + 1..count + 1] == ks[i..]
      ensures forall j :: 0 <= j < |ks| ==> ks[j].position == if j < i then old(ks[j].position) else j + 1
    {
      hide Distinct;
      var j := count;
      while j > i
        invariant i <= j <= count
        invariant forall t :: 0 <= t < j ==> children[t] == ks[t]
        invariant forall t :: j < t <= count ==> children[t] == ks[t - 1]
        invariant forall t :: 0 <= t < |ks| ==> ks[t].position == if t < j then old(ks[t].position) else t + 1
      {
        MoveChild(j - 1, j, ks);
        j := j - 1;
      }
      children[i] := null;
    }

    /** Child i, one of ks, comes to place j as well. */
    method MoveChild(i: nat, j: nat, ghost ks: seq<Node>)
      requires i < |ks| && i < children.Length && j < children.Length && children[i] == ks[i] && Distinct(ks)
      modifies children, ks`position
      ensures children[j] == ks[i] && ks[i].position == j
      ensures forall t :: 0 <= t < children.Length && t != j ==> children[t] == old(children[t])
      ensures forall t :: 0 <= t < |ks| && t != i ==> ks[t].position == old(ks[t].position)
    {
      children[j] := children[i];
      children[j].position := j;
    }

    /** Removes the value at position i; an internal node also closes up its child i + 1. */
    method RemoveValue(i: nat, ghost ks: seq<Node>)
      requires Built(this) && i < count <= maxCount
      requires if leaf then ks == [] else |ks| == count + 1 && children[..count + 1] == ks && Distinct(ks)
      modifies values, children, `count, ks`position
      ensures count == old(count) - 1
      ensures values[..count] == Remove(old(values[..count]), i)
      ensures !leaf ==> children[..count + 1] == Remove(ks, i + 1)
      ensures forall j :: 0 <= j < |ks| ==> ks[j].position == if j <= i + 1 then old(ks[j].position) else j - 1
    {
      ghost var a := values[..count];
      if !leaf {
        CloseChild(i + 1, ks);
      }
      count := count - 1;
      assert values[..count + 1] == a;
      RotateDown(values, i, count);
      assert values[..count] == values[..i] + values[i..count];
      assert values[..i] == a[..i] && values[i..count] == a[i + 1..];
    }

    method CloseChild(i: nat, ghost ks: seq<Node>)
      requires Built(this) && !leaf && 0 < i <= count <= maxCount
      requires |ks| == count + 1 && children[..count + 1] == ks && Distinct(ks)
      modifies children, ks`position
      ensures children[..count] == Remove(ks, i)
      ensures forall j :: 0 <= j < |ks| ==> ks[j].position == if j <= i then old(ks[j].position) else j - 1
    {
      var j := i;
      while j < count
        invariant i <= j <= count
        invariant forall t :: 0 <= t < i ==> children[t] == ks[t]
        invariant forall t :: i <= t < j ==> children[t] == ks[t + 1]
        invariant forall t :: j < t <= count ==> children[t] == ks[t]
        invariant forall t :: 0 <= t < |ks| ==> ks[t].position == if i < t <= j then t - 1 else old(ks[t].position)
      {
        children[j] := children[j + 1];
        children[j].position := j;
        j := j + 1;
      }
      children[count] := null;
    }

    /** Takes over children from.. of src as children at.. of this node. */
    method AdoptRun(at: nat, src: Node, from: nat, n: nat, clear: bool, ghost ks: seq<Node>)
      requires children != src.children && at + n <= children.Length && from + n <= src.children.Length
      requires src.children[from..from + n] == ks && Distinct(ks)
      modifies children, src.children, ks`parent, ks`position
      ensures children[..at] == old(children[..at]) && children[at..at + n] == ks
      ensures children[at + n..] == old(children[at + n..])
      ensures src.children[..from] == old(src.children[..from])
      ensures src.children[from + n..] == old(src.children[from + n..])
      ensures !clear ==> src.children[..] == old(src.children[..])
      ensures forall j :: 0 <= j < |ks| ==> ks[j].parent == this && ks[j].position == at + j
    {
      var i := 0;
      ghost var a, b := children[..], src.children[..];
      ghost var us: seq<Node?>, nulls: seq<Node?> := ks, seq(n, _ => null);
      OverlaidParts(a, at, us);
      OverlaidParts(b, from, nulls);
      hide *;
      while i < n
        invariant 0 <= i <= n && children[..] == Overlaid(a, at, us, i)
        invariant src.children[..] == if clear then Overlaid(b, from, nulls, i) else b
        invariant forall j :: 0 <= j < i ==> ks[j].parent == this && ks[j].position == at + j
      {
        OverlaidBehind(b, from, nulls, i);
        assert src.children[..][from + i] == b[from + i] == b[from..from + n][i];
        AdoptOne(at, src, from, i, clear, ks);
        OverlaidMore(a, at, us, i);
        OverlaidMore(b, from, nulls, i);
        assert us[i] == ks[i] && nulls[i] == null;
        i := i + 1;
      }
      assert i == |us| == |nulls|;
    }

    method AdoptOne(at: nat, src: Node, from: nat, i: nat, clear: bool, ghost ks: seq<Node>)
      requires children != src.children && at + i < children.Length && from + |ks| <= src.children.Length && i < |ks|
      requires src.children[from + i] == ks[i] && Distinct(ks)
      modifies children, src.children, ks`parent, ks`position
      ensures children[..] == old(children[..])[at + i := ks[i]]
      ensures src.children[..] == if clear then old(src.children[..])[from + i := null] else old(src.children[..])
      ensures ks[i].parent == this && ks[i].position == at + i
      ensures forall j :: 0 <= j < |ks| && j != i ==>
        ks[j].parent == old(ks[j].parent) && ks[j].position == old(ks[j].position)
    {
      SetChild(at + i, src.children[from + i]);
      if clear {
        src.children[from + i] := null;
      }
    }

    /** The part of split that moves the upper values to dest and leaves the middle one just beyond count. */
    method SplitValues(dest: Node, insertPosition: nat)
      requires Built(this) && Built(dest) && dest != this && values != dest.values
      requires maxCount <= dest.maxCount && 0 < count <= maxCount && dest.count == 0
      modifies `count, dest`count, values, dest.values
      ensures
        if insertPosition == 0 then count == 0 && dest.count == old(count) - 1
        else if insertPosition == maxCount then count == old(count) - 1 && dest.count == 0
        else count + dest.count == old(count) - 1 && count <= dest.count <= count + 1
      ensures
        var k := SplitPoint(old(count), maxCount, insertPosition);
        && 0 <= k < old(count) && count == k && values[..k + 1] == old(values[..k + 1])
        && dest.count == old(count) - (k + 1) && dest.values[..dest.count] == old(values[k + 1..count])
    {
      dest.count := if insertPosition == 0 then count - 1 else if insertPosition == maxCount then 0 else count / 2;
      count := count - dest.count;
      SwapRun(values, count, dest.values, 0, dest.count);
      count := count - 1;
    }

    /** The part of split that moves the value just beyond count up to the parent p. */
    method SplitUp(p: Node, ghost pk: seq<Node>)
      requires Built(this) && Built(p) && p != this && values != p.values && !p.leaf && p.count < p.maxCount
      requires count < maxCount
      requires |pk| == p.count + 1 && p.children[..|pk|] == pk && Distinct(pk) && position < |pk|
      requires pk[position] == this
      modifies p`count, values, p.values, p.children, pk`position
      ensures values[..count] == old(values[..count])
      ensures p.count == old(p.count) + 1
      ensures p.values[..p.count] == Insert(old(p.values[..p.count]), old(position), old(values[count]))
      ensures
        var q := old(position); p.children[..q + 1] == pk[..q + 1] && p.children[q + 2..p.count + 1] == pk[q + 1..]
      ensures forall j :: 0 <= j < |pk| ==> pk[j].position == if j <= old(position) then old(pk[j].position) else j + 1
    {
      p.InsertValue(position, BLANK, pk);
      assert pk[position] == this;
      SwapValues(values, count, p.values, position);
    }

    /** The part of split that links dest next to this node and hands it the children ks[k + 1..]. */
    method SplitKids(dest: Node, p: Node, ghost pk: seq<Node>, ghost ks: seq<Node>)
      requires Built(this) && Built(dest) && Built(p) && leaf == dest.leaf && !p.leaf && maxCount <= dest.maxCount
      requires Apart({this, dest, p}) && p != this && p != dest && this != dest
      requires |pk| == p.count <= p.maxCount && position < |pk|
      requires p.children[..position + 1] == pk[..position + 1]
      requires p.children[position + 2..p.count + 1] == pk[position + 1..]
      requires
        if leaf then ks == []
        else |ks| == count + 1 + dest.count + 1 && |ks| <= children.Length && children[..|ks|] == ks && Distinct(ks)
      requires dest !in ks
      modifies children, dest.children, p.children, dest`position, dest`parent, ks`parent, ks`position
      ensures p.children[..p.count + 1] == Insert(pk, old(position) + 1, dest)
      ensures !leaf ==> children[..count + 1] == ks[..count + 1] && dest.children[..dest.count + 1] == ks[count + 1..]
      ensures forall j :: 0 <= j < |ks| ==> ks[j].parent == if j <= count then old(ks[j].parent) else dest
      ensures forall j :: 0 <= j < |ks| ==> ks[j].position == if j <= count then old(ks[j].position)
        else j - (count + 1)
      ensures dest.parent == p && dest.position == old(position) + 1
    {
      ghost var open, i, k := p.children[..], position + 1, count + 1;
      p.SetChild(position + 1, dest);
      GapFilled(open, pk, i, dest);
      assert p.children[..p.count + 1] == Insert(pk, i, dest);
      if !leaf {
        HandKids(dest, count + 1, dest.count + 1, ks);
      }
    }

    /** Children k.. of this node become the first n of dest. */
    method HandKids(dest: Node, k: nat, n: nat, ghost ks: seq<Node>)
      requires children != dest.children && k + n == |ks| <= children.Length && n <= dest.children.Length
      requires children[..|ks|] == ks && Distinct(ks)
      modifies children, dest.children, ks`parent, ks`position
      ensures children[..k] == ks[..k]
      ensures dest.children[..n] == ks[k..] && dest.children[n..] == old(dest.children[n..])
      ensures forall j :: 0 <= j < |ks| ==> ks[j].parent == if j < k then old(ks[j].parent) else dest
      ensures forall j :: 0 <= j < |ks| ==> ks[j].position == if j < k then old(ks[j].position) else j - k
    {
      RestApart(ks, [], k);
      hide *;
      ghost var mine := children[..];
      SameTake(mine, ks, |ks|, k);
      assert mine[k..k + n] == ks[k..];
      dest.AdoptRun(0, this, k, n, true, ks[k..]);
      assert children[..k] == mine[..k];
      assert forall j :: k <= j < |ks| ==> ks[j] == ks[k..][j - k];
    }

    ghost predicate SplitReady(dest: Node, pk: seq<Node>, ks: seq<Node>)
      reads this, dest, parent, children, dest.children, if parent == null then {} else {parent.children}
    {
      && parent != null && Built(this) && Built(dest) && Built(parent)
      && leaf == dest.leaf && !parent.leaf && maxCount <= dest.maxCount && 0 < count <= maxCount && dest.count == 0
      && parent.count < parent.maxCount && Apart({this, dest, parent}) && parent != this && parent != dest
      && this != dest
      && |pk| == parent.count + 1 && parent.children[..|pk|] == pk && Distinct(pk) && position < |pk|
      && pk[position] == this
      && (if leaf then ks == [] else |ks| == count + 1 && children[..|ks|] == ks && Distinct(ks))
      && dest !in ks && dest !in pk && this !in ks && forall i, j :: 0 <= i < |ks| && 0 <= j < |pk| ==> ks[i] != pk[j]
    }

    /** Moves the upper part of this node's values and children to its new right sibling dest, as much as is best for
        an insertion at insertPosition: all but one value at the start, none at the end, else half, rounded up;
        pk and ks are the children of the parent and of this node. */
    method Split(dest: Node, insertPosition: nat, ghost pk: seq<Node>, ghost ks: seq<Node>)
      requires SplitReady(dest, pk, ks)
      modifies `count, dest`count, parent`count, values, dest.values, parent.values, children, dest.children
      modifies parent.children
      modifies pk`position, dest`position, dest`parent, ks`parent, ks`position
      ensures
        if insertPosition == 0 then count == 0 && dest.count == old(count) - 1
        else if insertPosition == maxCount then count == old(count) - 1 && dest.count == 0
        else count + dest.count == old(count) - 1 && count <= dest.count <= count + 1
      ensures
        var k, p := SplitPoint(old(count), maxCount, insertPosition), old(parent);
        && 0 <= k < old(count) && count == k && values[..k] == old(values[..k])
        && dest.count == old(count) - (k + 1) && dest.values[..dest.count] == old(values[k + 1..count])
        && p.count == old(parent.count) + 1
        && p.values[..p.count] == Insert(old(parent.values[..parent.count]), old(position), old(values[k]))
        && p.children[..p.count + 1] == Insert(pk, old(position) + 1, dest)
        && (!leaf ==> children[..k + 1] == ks[..k + 1] && dest.children[..dest.count + 1] == ks[k + 1..])
      ensures
        var k := SplitPoint(old(count), maxCount, insertPosition);
        && (forall j :: 0 <= j < |ks| ==> ks[j].parent == if j <= k then old(ks[j].parent) else dest)
        && (forall j :: 0 <= j < |ks| ==> ks[j].position == if j <= k then old(ks[j].position) else j - (k + 1))
      ensures forall j :: 0 <= j < |pk| ==> pk[j].position == if j <= old(position) then old(pk[j].position) else j + 1
      ensures parent == old(parent) == dest.parent && dest.position == old(position) + 1
    {
      hide *;
      SplitParts(dest, pk, ks);
      SplitMiddle(dest, insertPosition, pk);
      SplitKids(dest, parent, pk, ks);
    }

    /** The part of split that concerns values. */
    method SplitMiddle(dest: Node, insertPosition: nat, ghost pk: seq<Node>)
      requires parent != null && Built(this) && Built(dest) && Built(parent) && !parent.leaf
      requires maxCount <= dest.maxCount && 0 < count <= maxCount && dest.count == 0 && parent.count < parent.maxCount
      requires parent != this && parent != dest && this != dest
      requires values != dest.values && values != parent.values && dest.values != parent.values
      requires |pk| == parent.count + 1 && parent.children[..|pk|] == pk && Distinct(pk) && position < |pk|
      requires pk[position] == this && dest !in pk
      modifies `count, dest`count, parent`count, values, dest.values, parent.values, parent.children, pk`position
      ensures position == old(position)
      ensures
        if insertPosition == 0 then count == 0 && dest.count == old(count) - 1
        else if insertPosition == maxCount then count == old(count) - 1 && dest.count == 0
        else count + dest.count == old(count) - 1 && count <= dest.count <= count + 1
      ensures
        var k, p := SplitPoint(old(count), maxCount, insertPosition), parent;
        && 0 <= k < old(count) && count == k && values[..k] == old(values[..k])
        && dest.count == old(count) - (k + 1) && dest.values[..dest.count] == old(values[k + 1..count])
        && p.count == old(p.count) + 1
        && p.values[..p.count] == Insert(old(p.values[..p.count]), position, old(values[k]))
        && p.children[..position + 1] == pk[..position + 1]
        && p.children[position + 2..p.count + 1] == pk[position + 1..]
      ensures forall j :: 0 <= j < |pk| ==> pk[j].position == if j <= position then old(pk[j].position) else j + 1
    {
      hide *;
      ghost var was := values[..];
      BuiltFor(this);
      SplitValues(dest, insertPosition);
      SameTake(values[..], was, count + 1, count);
      assert values[count] == values[..count + 1][count] == was[..count + 1][count] == was[count];
      SplitUp(parent, pk);
      assert pk[position] == this;
    }

    lemma SplitParts(dest: Node, pk: seq<Node>, ks: seq<Node>)
      requires SplitReady(dest, pk, ks)
      ensures parent != null && Built(this) && Built(dest) && Built(parent) && leaf == dest.leaf && !parent.leaf
      ensures maxCount <= dest.maxCount && 0 < count <= maxCount && dest.count == 0 && parent.count < parent.maxCount
      ensures Apart({this, dest, parent}) && parent != this && parent != dest && this != dest
      ensures values != dest.values && values != parent.values && dest.values != parent.values
      ensures children != dest.children && children != parent.children && dest.children != parent.children
      ensures |pk| == parent.count + 1 && parent.children[..|pk|] == pk && Distinct(pk) && position < |pk|
      ensures pk[position] == this && dest !in ks && dest !in pk && this !in ks && Distinct(ks)
      ensures if leaf then ks == [] else |ks| == count + 1 && children[..|ks|] == ks
      ensures forall j :: 0 <= j < |pk| ==> pk[j] !in ks
    {
    }

    /** for (i = 0; i < n; ++i) set_child(i, child(i + t)), clearing behind: children t.. move down to the front. */
    method AdoptDown(t: nat, n: nat, ghost ks: seq<Node>)
      requires 0 < t && t + n <= children.Length && children[t..t + n] == ks && Distinct(ks)
      modifies children, ks`parent, ks`position
      ensures children[..n] == ks
      ensures forall j :: 0 <= j < |ks| ==> ks[j].parent == this && ks[j].position == j
    {
      var i := 0;
      while i < n
        invariant 0 <= i <= n
        invariant forall j :: 0 <= j < i ==> children[j] == ks[j] && ks[j].parent == this && ks[j].position == j
        invariant forall u :: i + t <= u < n + t ==> children[u] == ks[u - t]
      {
        SetChild(i, children[i + t]);
        children[i + t] := null;
        i := i + 1;
      }
    }

    /** for (i = n - 1; i >= 0; --i) set_child(i + t, child(i)), clearing behind: the first n children move up by t. */
    method AdoptUp(t: nat, n: nat, ghost ks: seq<Node>)
      requires 0 < t && t + n <= children.Length && children[..n] == ks && Distinct(ks)
      modifies children, ks`parent, ks`position
      ensures children[t..t + n] == ks
      ensures forall j :: 0 <= j < |ks| ==> ks[j].parent == this && ks[j].position == j + t
    {
      var i := n;
      while i > 0
        invariant 0 <= i <= n
        invariant forall j :: i <= j < n ==> children[j + t] == ks[j] && ks[j].parent == this && ks[j].position == j + t
        invariant forall u :: 0 <= u < i ==> children[u] == ks[u]
      {
        i := i - 1;
        SetChild(i + t, children[i]);
        children[i] := null;
      }
    }

    // --- rebalancing with the right sibling ---

    method RebalanceRightToLeftValues(src: Node, toMove: nat, p: Node, ghost a: seq<Entry>, ghost b: seq<Entry>,
          ghost v: seq<Entry>)
      requires Built(this) && Built(src) && Built(p) && values != src.values && values != p.values
      requires src.values != p.values
      requires position < p.count <= p.maxCount && 1 <= toMove <= src.count <= src.maxCount
      requires count + toMove <= maxCount
      requires values[..count] == a && src.values[..src.count] == b && p.values[..p.count] == v
      modifies values, src.values, p.values
      ensures values[..count + toMove] == a + [v[position]] + b[..toMove - 1]
      ensures p.values[..p.count] == v[position := b[toMove - 1]]
      ensures src.values[..src.count - toMove] == b[toMove..]
    {
      PassDelimiter(src, toMove - 1, p, a, b, v);
      TakeOver(src, toMove, count + 1, src.count);
    }

    /** The first toMove - 1 values of src go behind the first k of this node, and what is behind toMove closes up. */
    method TakeOver(src: Node, toMove: nat, k: nat, n: nat)
      requires values != src.values && 1 <= toMove <= n <= src.values.Length && k + toMove - 1 <= values.Length
      modifies values, src.values
      ensures values[..k + toMove - 1] == old(values[..k]) + old(src.values[..toMove - 1])
      ensures src.values[..n - toMove] == old(src.values[toMove..n])
    {
      ghost var theirs := src.values[..];
      SwapRun(values, k, src.values, 0, toMove - 1);
      TakeJoined(values[..], k, k + toMove - 1);
      SameStretch(src.values[..], theirs, toMove - 1, toMove, n);
      ghost var mine := values[..];
      ShiftDown(src.values, toMove, n);
      assert values[..] == mine;
    }

    /** The delimiter in p comes to the end of this node, and value i of src becomes the delimiter. */
    method PassDelimiter(src: Node, i: nat, p: Node, ghost a: seq<Entry>, ghost b: seq<Entry>, ghost v: seq<Entry>)
      requires Built(this) && Built(src) && Built(p) && values != src.values && values != p.values
      requires src.values != p.values
      requires position < p.count <= p.maxCount && i < src.count <= src.maxCount && count < maxCount
      requires values[..count] == a && src.values[..src.count] == b && p.values[..p.count] == v
      modifies values, src.values, p.values
      ensures values[..count + 1] == a + [v[position]] && p.values[..p.count] == v[position := b[i]]
      ensures src.values[..i] == b[..i] && src.values[i + 1..src.count] == b[i + 1..]
    {
      SwapValues(values, count, p.values, position);
      SwapValues(p.values, position, src.values, i);
      assert values[..count] == a;
    }

    method RebalanceRightToLeftKids(src: Node, toMove: nat, ghost ks: seq<Node>, ghost xs: seq<Node>)
      requires Built(this) && Built(src) && this != src && children != src.children && !leaf && !src.leaf
      requires 1 <= toMove <= src.count <= src.maxCount && count + toMove <= maxCount
      requires |ks| == count + 1 && |xs| == src.count + 1 && children[..|ks|] == ks && src.children[..|xs|] == xs
      requires Distinct(xs)
      modifies children, src.children, xs`parent, xs`position
      ensures children[..|ks| + toMove] == ks + xs[..toMove] && src.children[..|xs| - toMove] == xs[toMove..]
      ensures forall j :: 0 <= j < |xs| ==> xs[j].parent == (if j < toMove then this else src)
      ensures forall j :: 0 <= j < |xs| ==> xs[j].position == if j < toMove then |ks| + j else j - toMove
    {
      hide DisjointKids, Distinct;
      HalvesApart(xs, toMove);
      var n := src.count - toMove + 1;
      assert src.children[..toMove] == xs[..toMove] && src.children[toMove..toMove + n] == xs[toMove..];
      TakeKids(src, count + 1, toMove, n, xs[..toMove], xs[toMove..]);
      TakeJoined(children[..], |ks|, |ks| + toMove);
      RunsJoined(xs, toMove, this, |ks|, src);
    }

    /** The first toMove children of src go to place at of this node, and the n behind them close up. */
    method TakeKids(src: Node, at: nat, toMove: nat, n: nat, ghost a: seq<Node>, ghost b: seq<Node>)
      requires children != src.children && at + toMove <= children.Length && toMove + n <= src.children.Length
      requires 0 < toMove && src.children[..toMove] == a && src.children[toMove..toMove + n] == b
      requires Distinct(a) && Distinct(b) && DisjointKids(a, b)
      modifies children, src.children, a`parent, a`position, b`parent, b`position
      ensures children[..at] == old(children[..at]) && children[at..at + toMove] == a && src.children[..n] == b
      ensures forall j :: 0 <= j < |a| ==> a[j].parent == this && a[j].position == at + j
      ensures forall j :: 0 <= j < |b| ==> b[j].parent == src && b[j].position == j
    {
      assert forall j :: 0 <= j < |a| ==> a[j] !in b;
      hide *;
      AdoptRun(at, src, 0, toMove, false, a);
      src.AdoptDown(toMove, n, b);
    }

    /** This node and its right sibling x below p, with their children ks and xs, as they are before either
        operation. */
    ghost predicate PairReady(x: Node, p: Node, ks: seq<Node>, xs: seq<Node>)
      reads this, x, p, children, x.children, ks
    {
      && Built(this) && Built(x) && Built(p) && this != x && this != p && x != p && leaf == x.leaf
      && values != x.values && values != p.values && x.values != p.values && children != x.children
      && position < p.count <= p.maxCount && x.count <= x.maxCount && count <= maxCount
      && (if leaf then ks == xs == []
        else |ks| == count + 1 && |xs| == x.count + 1 && children[..|ks|] == ks && x.children[..|xs|] == xs)
      && Distinct(ks) && Distinct(xs) && DisjointKids(ks, xs) && Adopted(this, ks)
      && this !in ks && this !in xs && x !in ks && x !in xs
    }

    lemma PairParts(x: Node, p: Node, ks: seq<Node>, xs: seq<Node>)
      requires PairReady(x, p, ks, xs)
      ensures Built(this) && Built(x) && Built(p) && this != x && leaf == x.leaf
      ensures values != x.values && values != p.values && x.values != p.values && children != x.children
      ensures position < p.count <= p.maxCount && x.count <= x.maxCount && count <= maxCount
      ensures leaf ==> ks == xs == []
      ensures !leaf ==> |ks| == count + 1 && |xs| == x.count + 1 && children[..|ks|] == ks && x.children[..|xs|] == xs
      ensures Distinct(ks) && Distinct(xs) && DisjointKids(ks, xs) && Adopted(this, ks)
      ensures this !in ks && this !in xs && x !in ks && x !in xs
    {
    }

    /** Rebalances with the right sibling src: toMove values and children come over to this node. */
    method RebalanceRightToLeft(src: Node, toMove: nat, p: Node, ghost a: seq<Entry>, ghost b: seq<Entry>,
          ghost v: seq<Entry>, ghost ks: seq<Node>, ghost xs: seq<Node>)
      requires PairReady(src, p, ks, xs) && 1 <= toMove <= src.count && count + toMove <= maxCount
      requires values[..count] == a && src.values[..src.count] == b && p.values[..p.count] == v
      modifies values, src.values, p.values, `count, src`count, children, src.children, xs`parent, xs`position
      ensures count == |a| + toMove && src.count == |b| - toMove
      ensures values[..count] == a + [v[position]] + b[..toMove - 1]
      ensures p.values[..p.count] == v[position := b[toMove - 1]]
      ensures src.values[..src.count] == b[toMove..]
      ensures !leaf ==> children[..count + 1] == ks + xs[..toMove] && src.children[..src.count + 1] == xs[toMove..]
      ensures forall j :: 0 <= j < |xs| ==> xs[j].parent == (if j < toMove then this else src)
      ensures forall j :: 0 <= j < |xs| ==> xs[j].position == if j < toMove then |ks| + j else j - toMove
    {
      RebalanceRightToLeftValues(src, toMove, p, a, b, v);
      if !leaf {
        RebalanceRightToLeftKids(src, toMove, ks, xs);
      }
      count := count + toMove;
      src.count := src.count - toMove;
    }

    method RebalanceLeftToRightValues(dest: Node, toMove: nat, p: Node, ghost a: seq<Entry>, ghost b: seq<Entry>,
          ghost v: seq<Entry>)
      requires Built(this) && Built(dest) && Built(p) && values != dest.values && values != p.values
      requires dest.values != p.values
      requires position < p.count <= p.maxCount && 1 <= toMove <= count <= maxCount
      requires dest.count + toMove <= dest.maxCount
      requires values[..count] == a && dest.values[..dest.count] == b && p.values[..p.count] == v
      modifies values, dest.values, p.values
      ensures values[..count - toMove] == a[..count - toMove]
      ensures p.values[..p.count] == v[position := a[count - toMove]]
      ensures dest.values[..dest.count + toMove] == a[count - toMove + 1..] + [v[position]] + b
    {
      hide *;
      BuiltFor(this);
      BuiltFor(dest);
      BuiltFor(p);
      var k := count - toMove;
      ShiftUp(dest.values, toMove, dest.count);
      PassDelimiterRight(dest, toMove, k, p, a, b, v);
      HandOver(dest, toMove, k, a, [v[position]] + b);
      Associates(a[k + 1..], [v[position]], b);
    }

    /** The values behind place k come in front of the values c that dest has from place toMove - 1 on. */
    method HandOver(dest: Node, toMove: nat, k: nat, ghost a: seq<Entry>, ghost c: seq<Entry>)
      requires values != dest.values && 1 <= toMove && k + toMove == |a| <= values.Length
      requires toMove - 1 + |c| <= dest.values.Length
      requires values[..k] == a[..k] && values[k + 1..k + toMove] == a[k + 1..]
      requires dest.values[toMove - 1..toMove - 1 + |c|] == c
      modifies values, dest.values
      ensures values[..k] == a[..k] && dest.values[..toMove - 1 + |c|] == a[k + 1..] + c
    {
      ghost var mine, theirs := values[..], dest.values[..];
      SwapRun(values, k + 1, dest.values, 0, toMove - 1);
      SameTake(values[..], mine, k + 1, k);
      SameStretch(dest.values[..], theirs, toMove - 1, toMove - 1, toMove - 1 + |c|);
      TakeJoined(dest.values[..], toMove - 1, toMove - 1 + |c|);
    }

    /** The delimiter in p comes in front of the values of dest, and value k of this node becomes the delimiter. */
    method PassDelimiterRight(dest: Node, i: nat, k: nat, p: Node, ghost a: seq<Entry>, ghost b: seq<Entry>,
          ghost v: seq<Entry>)
      requires values != dest.values && values != p.values && dest.values != p.values
      requires position < p.count <= p.values.Length && k < count <= values.Length && 1 <= i
      requires i + |b| <= dest.values.Length
      requires values[..count] == a && dest.values[i..i + |b|] == b && p.values[..p.count] == v
      modifies values, dest.values, p.values
      ensures values[..k] == a[..k] && values[k + 1..count] == a[k + 1..] && p.values[..p.count] == v[position := a[k]]
      ensures dest.values[i - 1..i + |b|] == [v[position]] + b
    {
      SwapValues(dest.values, i - 1, p.values, position);
      SwapValues(p.values, position, values, k);
    }

    method RebalanceLeftToRightKids(dest: Node, toMove: nat, ghost ks: seq<Node>, ghost xs: seq<Node>)
      requires Built(this) && Built(dest) && this != dest && children != dest.children && !leaf && !dest.leaf
      requires 1 <= toMove <= count <= maxCount && dest.count + toMove <= dest.maxCount
      requires |ks| == count + 1 && |xs| == dest.count + 1 && children[..|ks|] == ks && dest.children[..|xs|] == xs
      requires Distinct(ks) && Distinct(xs) && DisjointKids(ks, xs) && Adopted(this, ks)
      modifies children, dest.children, xs`parent, xs`position, ks`parent, ks`position
      ensures children[..|ks| - toMove] == ks[..|ks| - toMove]
      ensures dest.children[..|xs| + toMove] == ks[|ks| - toMove..] + xs
      ensures forall j :: 0 <= j < |xs| ==> xs[j].parent == dest && xs[j].position == j + toMove
      ensures forall j :: 0 <= j < |ks| ==> ks[j].parent == if j < |ks| - toMove then this else dest
      ensures forall j :: 0 <= j < |ks| ==> ks[j].position == if j < |ks| - toMove then j else j - (|ks| - toMove)
    {
      var k := count + 1 - toMove;
      RestApart(ks, xs, k);
      hide *;
      dest.AdoptUp(toMove, dest.count + 1, xs);
      assert forall j :: 0 <= j < |ks| ==> ks[j].parent == this && ks[j].position == j;
      ghost var theirs := dest.children[..];
      HandKids(dest, k, toMove, ks);
      SameStretch(dest.children[..], theirs, toMove, toMove, |xs| + toMove);
      TakeJoined(dest.children[..], toMove, |xs| + toMove);
    }

    /** Rebalances with the right sibling dest: toMove values and children leave this node. */
    method RebalanceLeftToRight(dest: Node, toMove: nat, p: Node, ghost a: seq<Entry>, ghost b: seq<Entry>,
          ghost v: seq<Entry>, ghost ks: seq<Node>, ghost xs: seq<Node>)
      requires PairReady(dest, p, ks, xs) && 1 <= toMove <= count && dest.count + toMove <= dest.maxCount
      requires values[..count] == a && dest.values[..dest.count] == b && p.values[..p.count] == v
      modifies values, dest.values, p.values, `count, dest`count, children, dest.children, xs`parent, xs`position
      modifies ks`parent, ks`position
      ensures count == |a| - toMove && dest.count == |b| + toMove
      ensures values[..count] == a[..count]
      ensures p.values[..p.count] == v[position := a[count]]
      ensures dest.values[..dest.count] == a[count + 1..] + [v[position]] + b
      ensures !leaf ==>
        children[..count + 1] == ks[..count + 1] && dest.children[..dest.count + 1] == ks[count + 1..] + xs
      ensures forall j :: 0 <= j < |xs| ==> xs[j].parent == dest && xs[j].position == j + toMove
      ensures forall j :: 0 <= j < |ks| ==> ks[j].parent == if j <= count then this else dest
      ensures forall j :: 0 <= j < |ks| ==> ks[j].position == if j <= count then j else j - (count + 1)
    {
      hide *;
      PairParts(dest, p, ks, xs);
      var n, m := count - toMove, dest.count + toMove;
      MoveRight(dest, toMove, n, m, p, a, b, v, ks, xs);
      SetCounts(dest, n, m);
    }

    /** Everything that rebalancing moves to the right, with the counts still as they were. */
    method MoveRight(dest: Node, toMove: nat, n: nat, m: nat, p: Node, ghost a: seq<Entry>, ghost b: seq<Entry>,
          ghost v: seq<Entry>, ghost ks: seq<Node>, ghost xs: seq<Node>)
      requires PairReady(dest, p, ks, xs) && 1 <= toMove <= count && dest.count + toMove <= dest.maxCount
      requires n + toMove == count && m == dest.count + toMove
      requires values[..count] == a && dest.values[..dest.count] == b && p.values[..p.count] == v
      modifies values, dest.values, p.values, children, dest.children, xs`parent, xs`position, ks`parent, ks`position
      ensures values[..n] == a[..n] && p.values[..p.count] == v[position := a[n]]
      ensures dest.values[..m] == a[n + 1..] + [v[position]] + b
      ensures !leaf ==> children[..n + 1] == ks[..n + 1] && dest.children[..m + 1] == ks[n + 1..] + xs
      ensures forall j :: 0 <= j < |xs| ==> xs[j].parent == dest && xs[j].position == j + toMove
      ensures forall j :: 0 <= j < |ks| ==> ks[j].parent == if j <= n then this else dest
      ensures forall j :: 0 <= j < |ks| ==> ks[j].position == if j <= n then j else j - (n + 1)
    {
      hide *;
      PairParts(dest, p, ks, xs);
      RebalanceLeftToRightValues(dest, toMove, p, a, b, v);
      if !leaf {
        RebalanceLeftToRightKids(dest, toMove, ks, xs);
        KidsCounted(dest, ks, xs, n, m, toMove);
      }
    }

    lemma KidsCounted(dest: Node, ks: seq<Node>, xs: seq<Node>, n: nat, m: nat, toMove: nat)
      requires |ks| == n + toMove + 1 && |xs| + toMove == m + 1
      requires n + 1 <= children.Length && m + 1 <= dest.children.Length
      requires children[..|ks| - toMove] == ks[..|ks| - toMove]
      requires dest.children[..|xs| + toMove] == ks[|ks| - toMove..] + xs
      requires forall j :: 0 <= j < |ks| ==> ks[j].parent == if j < |ks| - toMove then this else dest
      requires forall j :: 0 <= j < |ks| ==> ks[j].position == if j < |ks| - toMove then j else j - (|ks| - toMove)
      ensures children[..n + 1] == ks[..n + 1] && dest.children[..m + 1] == ks[n + 1..] + xs
      ensures forall j :: 0 <= j < |ks| ==> ks[j].parent == if j <= n then this else dest
      ensures forall j :: 0 <= j < |ks| ==> ks[j].position == if j <= n then j else j - (n + 1)
    {
    }

    method SetCounts(x: Node, n: nat, m: nat)
      requires this != x
      modifies `count, x`count
      ensures count == n && x.count == m
    {
      count, x.count := n, m;
    }

    // --- merging with the right sibling ---

    method MergeValues(src: Node, p: Node, ghost a: seq<Entry>, ghost b: seq<Entry>, ghost v: seq<Entry>)
      requires Built(this) && Built(src) && Built(p) && values != src.values && values != p.values
      requires src.values != p.values
      requires position < p.count <= p.maxCount && src.count <= src.maxCount && count + 1 + src.count <= maxCount
      requires values[..count] == a && src.values[..src.count] == b && p.values[..p.count] == v
      modifies values, src.values, p.values
      ensures values[..count + 1 + src.count] == a + [v[position]] + b
      ensures Remove(p.values[..p.count], position) == Remove(v, position)
    {
      hide *;
      BuiltFor(this);
      BuiltFor(src);
      BuiltFor(p);
      SwapValues(values, count, p.values, position);
      RemoveUpdated(v, position, p.values[position]);
      assert p.values[..p.count] == v[position := p.values[position]];
      assert values[..count + 1] == a + [v[position]] && src.values[..src.count] == b;
      SwapRun(values, count + 1, src.values, 0, src.count);
      TakeJoined(values[..], count + 1, count + 1 + src.count);
    }

    /** The part of merge before the parent closes the gap. */
    method MergeHere(src: Node, p: Node, ghost a: seq<Entry>, ghost b: seq<Entry>, ghost v: seq<Entry>,
          ghost ks: seq<Node>, ghost xs: seq<Node>)
      requires PairReady(src, p, ks, xs) && count + 1 + src.count <= maxCount
      requires values[..count] == a && src.values[..src.count] == b && p.values[..p.count] == v
      modifies values, src.values, p.values, `count, src`count, children, src.children, xs`parent, xs`position
      ensures count == |a| + 1 + |b| && src.count == 0
      ensures values[..count] == a + [v[position]] + b
      ensures Remove(p.values[..p.count], position) == Remove(v, position)
      ensures !leaf ==> children[..count + 1] == ks + xs
      ensures forall j :: 0 <= j < |xs| ==> xs[j].parent == this && xs[j].position == |ks| + j
    {
      hide *;
      PairParts(src, p, ks, xs);
      var n := 1 + count + src.count;
      MoveLeft(src, n, p, a, b, v, ks, xs);
      SetCounts(src, n, 0);
    }

    /** Everything that a merge moves to the left, with the counts still as they were. */
    method MoveLeft(src: Node, n: nat, p: Node, ghost a: seq<Entry>, ghost b: seq<Entry>, ghost v: seq<Entry>,
          ghost ks: seq<Node>, ghost xs: seq<Node>)
      requires PairReady(src, p, ks, xs) && n == 1 + count + src.count && n <= maxCount
      requires values[..count] == a && src.values[..src.count] == b && p.values[..p.count] == v
      modifies values, src.values, p.values, children, src.children, xs`parent, xs`position
      ensures values[..n] == a + [v[position]] + b
      ensures Remove(p.values[..p.count], position) == Remove(v, position)
      ensures !leaf ==> children[..n + 1] == ks + xs
      ensures forall j :: 0 <= j < |xs| ==> xs[j].parent == this && xs[j].position == |ks| + j
    {
      hide *;
      PairParts(src, p, ks, xs);
      MergeValues(src, p, a, b, v);
      if !leaf {
        AdoptRun(1 + count, src, 0, src.count + 1, true, xs);
        TakeJoined(children[..], count + 1, n + 1);
      }
    }

    /** Takes over the delimiting value and everything of the right sibling src, and drops both from the parent p. */
    method Merge(src: Node, p: Node, ghost a: seq<Entry>, ghost b: seq<Entry>, ghost v: seq<Entry>, ghost pk: seq<Node>,
          ghost ks: seq<Node>, ghost xs: seq<Node>)
      requires PairReady(src, p, ks, xs) && count + 1 + src.count <= maxCount
      requires values[..count] == a && src.values[..src.count] == b && p.values[..p.count] == v
      requires !p.leaf && children != p.children && src.children != p.children
      requires |pk| == p.count + 1 && p.children[..|pk|] == pk && Distinct(pk) && pk[position] == this && InOrder(pk)
      requires DisjointKids(xs, pk)
      modifies values, src.values, p.values, `count, src`count, p`count, children, src.children, p.children
      modifies xs`parent, xs`position, pk`position
      ensures count == |a| + 1 + |b| && src.count == 0 && p.count == |v| - 1
      ensures values[..count] == a + [v[old(position)]] + b
      ensures p.values[..p.count] == Remove(v, old(position))
      ensures p.children[..p.count + 1] == Remove(pk, old(position) + 1)
      ensures !leaf ==> children[..count + 1] == ks + xs
      ensures forall j :: 0 <= j < |xs| ==> xs[j].parent == this && xs[j].position == |ks| + j
      ensures forall j :: 0 <= j < |pk| ==> pk[j].position == if j <= old(position) + 1 then j else j - 1
    {
      MergeHere(src, p, a, b, v, ks, xs);
      p.RemoveValue(position, pk);
    }

    // --- swapping contents with another node ---

    method SwapChildren(x: Node, n: nat)
      requires children != x.children && n <= children.Length && n <= x.children.Length
      modifies children, x.children
      ensures children[..n] == old(x.children[..n]) && x.children[..n] == old(children[..n])
    {
      var i := 0;
      while i < n
        invariant 0 <= i <= n
        invariant forall j :: 0 <= j < i ==> children[j] == old(x.children[j]) && x.children[j] == old(children[j])
        invariant forall j :: i <= j < n ==> children[j] == old(children[j]) && x.children[j] == old(x.children[j])
      {
        children[i], x.children[i] := x.children[i], children[i];
        i := i + 1;
      }
    }

    method ClaimChildren(n: nat, ghost ks: seq<Node>)
      requires n < children.Length && children[..n + 1] == ks
      modifies ks`parent
      ensures forall j :: 0 <= j < |ks| ==> ks[j].parent == this
    {
      var i := 0;
      while i <= n
        invariant 0 <= i <= n + 1
        invariant forall j :: 0 <= j < i ==> ks[j].parent == this
      {
        assert children[i] == ks[i];
        children[i].parent := this;
        i := i + 1;
      }
    }

    method SwapKids(x: Node, n: nat, ghost ks: seq<Node>, ghost xs: seq<Node>)
      requires children != x.children && n == (if count < x.count then x.count else count) && n + 1 <= children.Length
      requires n + 1 <= x.children.Length
      requires |ks| == count + 1 && |xs| == x.count + 1 && children[..|ks|] == ks && x.children[..|xs|] == xs
      requires DisjointKids(ks, xs)
      modifies children, x.children, ks`parent, xs`parent
      ensures children[..|xs|] == xs && x.children[..|ks|] == ks
      ensures forall j :: 0 <= j < |ks| ==> ks[j].parent == x
      ensures forall j :: 0 <= j < |xs| ==> xs[j].parent == this
    {
      SwapChildren(x, n + 1);
      assert children[..|xs|] == children[..n + 1][..|xs|] && x.children[..|ks|] == x.children[..n + 1][..|ks|];
      x.ClaimChildren(count, ks);
      ClaimChildren(x.count, xs);
    }

    method Swap(x: Node, ghost ks: seq<Node>, ghost xs: seq<Node>)
      requires Built(this) && Built(x) && this != x && leaf == x.leaf && values != x.values && children != x.children
      requires count <= maxCount && count <= x.maxCount && x.count <= maxCount && x.count <= x.maxCount
      requires
        if leaf then ks == xs == []
        else
          && |ks| == count + 1 && |xs| == x.count + 1 && children[..|ks|] == ks && x.children[..|xs|] == xs
          && DisjointKids(ks, xs)
      modifies values, x.values, children, x.children, `count, x`count, ks`parent, xs`parent
      ensures count == old(x.count) && values[..count] == old(x.values[..x.count])
      ensures x.count == old(count) && x.values[..x.count] == old(values[..count])
      ensures !leaf ==> children[..|xs|] == xs && x.children[..|ks|] == ks
      ensures forall j :: 0 <= j < |ks| ==> ks[j].parent == x
      ensures forall j :: 0 <= j < |xs| ==> xs[j].parent == this
    {
      var n := if count < x.count then x.count else count;
      SwapRun(values, 0, x.values, 0, n);
      assert values[..x.count] == values[..n][..x.count] && x.values[..count] == x.values[..n][..count];
      if !leaf {
        SwapKids(x, n, ks, xs);
      }
      count, x.count := x.count, count;
    }
  }

  ghost predicate DisjointKids(a: seq<Node>, b: seq<Node>) {
    forall i, j :: 0 <= i < |a| && 0 <= j < |b| ==> a[i] != b[j]
  }

  ghost predicate InOrder(ks: seq<Node>)
    reads ks
  {
    forall j :: 0 <= j < |ks| ==> ks[j].position == j
  }

  ghost predicate Adopted(n: Node, ks: seq<Node>)
    reads ks
  {
    forall j :: 0 <= j < |ks| ==> ks[j].parent == n && ks[j].position == j
  }

  function SplitPoint(count: nat, maxCount: nat, insertPosition: nat): int {
    if insertPosition == 0 then 0
    else if insertPosition == maxCount then count - 1
    else count - count / 2 - 1
  }

  lemma InsertRotated(w: seq<Entry>, a: seq<Entry>, i: nat, n: nat, x: Entry)
    requires i <= n < |w| == |a| && w[..i] == a[n := x][..i] && w[i] == x && w[i + 1..n + 1] == a[n := x][i..n]
    ensures w[..n + 1] == Insert(a[..n], i, x)
  {
    TakeJoined(w, i, i + 1);
    TakeJoined(w, i + 1, n + 1);
    assert a[n := x][..i] == a[..n][..i] && a[n := x][i..n] == a[..n][i..];
  }

  lemma RemoveUpdated(v: seq<Entry>, i: nat, x: Entry)
    requires i < |v|
    ensures Remove(v[i := x], i) == Remove(v, i)
  {
  }

  lemma BuiltFor(n: Node)
    requires Built(n)
    ensures n.values.Length == n.maxCount && n.children.Length == if n.leaf then 0 else n.maxCount + 1
  {
  }

  /** Child d fills the gap at place i. */
  lemma GapFilled(c: seq<Node?>, pk: seq<Node>, i: nat, d: Node)
    requires i <= |pk| < |c| && c[..i] == pk[..i] && c[i + 1..|pk| + 1] == pk[i..]
    ensures c[i := d][..|pk| + 1] == Insert(pk, i, d)
  {
    var r := c[i := d];
    TakeJoined(r, i, |pk| + 1);
    assert r[..i] == pk[..i] && r[i..|pk| + 1] == [d] + c[i + 1..|pk| + 1];
  }

  lemma RunsJoined(xs: seq<Node>, k: nat, m: Node, at: nat, n: Node)
    requires k <= |xs|
    requires forall j :: 0 <= j < |xs[..k]| ==> xs[..k][j].parent == m && xs[..k][j].position == at + j
    requires forall j :: 0 <= j < |xs[k..]| ==> xs[k..][j].parent == n && xs[k..][j].position == j
    ensures forall j :: 0 <= j < |xs| ==> xs[j].parent == if j < k then m else n
    ensures forall j :: 0 <= j < |xs| ==> xs[j].position == if j < k then at + j else j - k
  {
    forall j | 0 <= j < |xs|
      ensures xs[j].parent == if j < k then m else n
      ensures xs[j].position == if j < k then at + j else j - k
    {
      assert xs[j] == if j < k then xs[..k][j] else xs[k..][j - k];
    }
  }

  lemma HalvesApart(xs: seq<Node>, k: nat)
    requires Distinct(xs) && k <= |xs|
    ensures Distinct(xs[..k]) && Distinct(xs[k..]) && DisjointKids(xs[..k], xs[k..])
  {
  }

  /** The children from place k on are different from those before and from the neighbour's. */
  lemma RestApart(ks: seq<Node>, xs: seq<Node>, k: nat)
    requires Distinct(ks) && DisjointKids(ks, xs) && k <= |ks|
    ensures Distinct(ks[k..]) && (forall j :: 0 <= j < k ==> ks[j] !in ks[k..])
    ensures forall j :: 0 <= j < |xs| ==> xs[j] !in ks && xs[j] !in ks[k..]
  {
  }

  lemma KidsDistinct(s: Store, r: Node, n: Node)
    requires r in s && n in s && DownOk(s, r, n)
    ensures Distinct(s[n].kids)
  {
    forall i, j | 0 <= i < j < |s[n].kids|
      ensures s[n].kids[i] != s[n].kids[j]
    {
      assert KidOk(s, r, n, s[n].kids[i], i) && KidOk(s, r, n, s[n].kids[j], j);
    }
  }

  /** What never changes about a node: its storage fits its kind and capacity. */
  ghost predicate Built(n: Node) {
    n.values.Length == n.maxCount && n.children.Length == if n.leaf then 0 else n.maxCount + 1
  }

  datatype Rec = Rec(parent: Node?, position: nat, vals: seq<Entry>, kids: seq<Node>,
                     height: nat, cont: seq<Entry>, lspine: bool, rspine: bool)

  type Store = map<Node, Rec>

  /** The in-order sequences below the given children. */
  ghost function Conts(s: Store, ks: seq<Node>): (c: seq<seq<Entry>>)
    ensures |c| == |ks|
    ensures forall i :: 0 <= i < |ks| && ks[i] in s ==> c[i] == s[ks[i]].cont
  {
    seq(|ks|, i requires 0 <= i < |ks| => if ks[i] in s then s[ks[i]].cont else [])
  }

  /** The in-order sequence of a node with these values and children. */
  ghost function Flat(s: Store, leaf: bool, vals: seq<Entry>, kids: seq<Node>): seq<Entry> {
    if leaf || |kids| != |vals| + 1 then vals else Weave(vals, Conts(s, kids))
  }

  ghost predicate KidOk(s: Store, r: Node, n: Node, k: Node, i: nat)
    requires n in s
  {
    && k in s && k != r
    && s[k].parent == n && s[k].position == i && s[k].height + 1 == s[n].height
  }

  ghost predicate DownOk(s: Store, r: Node, n: Node)
    requires r in s && n in s
  {
    var c := s[n];
    && (n.leaf <==> c.height == 0)
    && c.height <= s[r].height
    && |c.kids| == (if n.leaf then 0 else |c.vals| + 1)
    && (forall i :: 0 <= i < |c.kids| ==> KidOk(s, r, n, c.kids[i], i))
  }

  ghost predicate UpOk(s: Store, r: Node, n: Node)
    requires r in s && n in s
  {
    var c := s[n];
    if n == r then c.lspine && c.rspine
    else
      && c.parent in s && !c.parent.leaf
      && c.position < |s[c.parent].kids| && s[c.parent].kids[c.position] == n
      && s[c.parent].height == c.height + 1
      && c.lspine == (c.position == 0 && s[c.parent].lspine)
      && c.rspine == (c.position + 1 == |s[c.parent].kids| && s[c.parent].rspine)
  }

  ghost predicate ContOk(s: Store, n: Node)
    requires n in s
  {
    s[n].cont == Flat(s, n.leaf, s[n].vals, s[n].kids)
  }

  ghost predicate NodeOk(s: Store, r: Node, h: Node?, n: Node)
    requires r in s && n in s
  {
    DownOk(s, r, n) && UpOk(s, r, n) && (n == h || ContOk(s, n))
  }

  ghost predicate Linked(s: Store, r: Node, h: Node?) {
    && r in s
    && (forall n {:trigger NodeOk(s, r, h, n)} :: n in s ==> NodeOk(s, r, h, n))
    && s[r].parent in s && s[r].parent.leaf && s[s[r].parent].lspine
  }

  lemma IsLinked(s: Store, r: Node)
    requires r in s && s[r].parent in s && s[r].parent.leaf && s[s[r].parent].lspine
    requires forall n {:trigger NodeOk(s, r, null, n)} :: n in s ==> NodeOk(s, r, null, n)
    ensures Linked(s, r, null)
  {
    hide NodeOk;
  }

  lemma LinkedFirst(s: Store, r: Node, h: Node?)
    requires Linked(s, r, h)
    ensures r in s && s[r].parent in s && s[r].parent.leaf && s[s[r].parent].lspine
  {
    hide NodeOk;
  }

  lemma LinkedNode(s: Store, r: Node, h: Node?, n: Node)
    requires Linked(s, r, h) && n in s
    ensures NodeOk(s, r, h, n)
  {
  }

  /** Which nodes a node operation at p may re-link: the children of p and of its child n. */
  lemma WhoseKid(s: Store, r: Node, n: Node, x: Node)
    requires r in s && n in s && x in s && DownOk(s, r, n) && UpOk(s, r, x)
    ensures x != r && s[x].parent == n ==> s[x].position < |s[n].kids| && s[n].kids[s[x].position] == x
    ensures x == r || s[x].parent != n ==> x !in s[n].kids
  {
    forall i | 0 <= i < |s[n].kids| && s[n].kids[i] == x
      ensures x != r && s[x].parent == n
    {
      assert KidOk(s, r, n, s[n].kids[i], i);
    }
  }

  function Take<T>(ks: seq<T>, i: nat): seq<T> { if i <= |ks| then ks[..i] else ks }
  function Drop<T>(ks: seq<T>, i: nat): seq<T> { if i <= |ks| then ks[i..] else [] }

  // --- what stays in order around a change elsewhere ---

  ghost predicate SameLink(a: Rec, b: Rec) {
    a.parent == b.parent && a.position == b.position && a.height == b.height
  }

  /** Equal in everything the heap knows about. */
  ghost predicate SameHeap(a: Rec, b: Rec) {
    a.vals == b.vals && a.kids == b.kids && a.parent == b.parent && a.position == b.position
  }

  ghost predicate SameData(a: Rec, b: Rec) {
    a.vals == b.vals && a.kids == b.kids && a.cont == b.cont && SameSpine(a, b)
  }

  ghost predicate SameBody(a: Rec, b: Rec) {
    a.kids == b.kids && a.vals == b.vals && a.cont == b.cont && SameSpine(a, b)
  }

  ghost predicate SameSpine(a: Rec, b: Rec) {
    a.height == b.height && a.lspine == b.lspine && a.rspine == b.rspine
  }

  lemma KeepDown(s: Store, s': Store, r: Node, x: Node)
    requires r in s && r in s' && s'[r].height == s[r].height
    requires x in s && x in s' && DownOk(s, r, x) && SameBody(s'[x], s[x])
    requires forall i :: 0 <= i < |s[x].kids| && s[x].kids[i] in s ==>
      s[x].kids[i] in s' && SameLink(s'[s[x].kids[i]], s[s[x].kids[i]]) && s'[s[x].kids[i]].cont == s[s[x].kids[i]].cont
    ensures DownOk(s', r, x)
    ensures ContOk(s, x) ==> ContOk(s', x)
  {
    forall i | 0 <= i < |s[x].kids|
      ensures KidOk(s', r, x, s[x].kids[i], i)
    {
      assert KidOk(s, r, x, s[x].kids[i], i);
    }
    assert Conts(s', s[x].kids) == Conts(s, s[x].kids);
  }

  lemma KeepUp(s: Store, s': Store, r: Node, x: Node)
    requires r in s && r in s'
    requires x in s && x in s' && UpOk(s, r, x) && SameLink(s'[x], s[x]) && SameSpine(s'[x], s[x])
    requires x != r && s[x].parent in s ==>
      s[x].parent in s' && SameSpine(s'[s[x].parent], s[s[x].parent]) && s'[s[x].parent].kids == s[s[x].parent].kids
    ensures UpOk(s', r, x)
  {
  }

  lemma FlatSame(s: Store, s': Store, vals: seq<Entry>, kids: seq<Node>, leaf: bool)
    requires Conts(s, kids) == Conts(s', kids)
    ensures Flat(s, leaf, vals, kids) == Flat(s', leaf, vals, kids)
  {
  }

  // --- splitting ---

  /** The store after node n, child q of p, has given its children beyond k to its new right sibling d. */
  ghost function SplitLinks(s: Store, r: Node, p: Node, n: Node, q: nat, d: Node, k: nat, pr: Rec, nr: Rec,
        dr: Rec): Store
  {
    map x | x in s.Keys + {d} ::
      if x == d then dr
      else if x == n then nr
      else if x == p then pr
      else if x != r && s[x].parent == n && s[x].position > k then
        s[x].(parent := d, position := s[x].position - (k + 1))
      else if x != r && s[x].parent == p && s[x].position > q then s[x].(position := s[x].position + 1)
      else s[x]
  }

  ghost predicate CanSplit(s: Store, r: Node, p: Node, q: nat, n: Node, d: Node, k: nat) {
    && r in s && Linked(s, r, null)
    && p in s && !p.leaf && NodeOk(s, r, null, p) && q < |s[p].kids| && n == s[p].kids[q]
    && n in s && NodeOk(s, r, null, n) && k < |s[n].vals|
    && d !in s && d.leaf == n.leaf
  }

  ghost function SplitLeft(s: Store, n: Node, k: nat): Rec
    requires n in s && k < |s[n].vals|
  {
    var c := s[n];
    c.(vals := c.vals[..k], kids := Take(c.kids, k + 1), rspine := false,
       cont := Flat(s, n.leaf, c.vals[..k], Take(c.kids, k + 1)))
  }

  ghost function SplitRight(s: Store, n: Node, k: nat): Rec
    requires n in s && k < |s[n].vals|
  {
    var c := s[n];
    Rec(c.parent, c.position + 1, c.vals[k + 1..], Drop(c.kids, k + 1), c.height,
        Flat(s, n.leaf, c.vals[k + 1..], Drop(c.kids, k + 1)), false, c.rspine)
  }

  ghost function SplitParent(s: Store, p: Node, q: nat, n: Node, d: Node, k: nat): Rec
    requires p in s && n in s && k < |s[n].vals| && q <= |s[p].vals| && q < |s[p].kids|
  {
    s[p].(vals := Insert(s[p].vals, q, s[n].vals[k]), kids := Insert(s[p].kids, q + 1, d))
  }

  ghost function SplitStore(s: Store, r: Node, p: Node, q: nat, n: Node, d: Node, k: nat): Store
    requires CanSplit(s, r, p, q, n, d, k)
  {
    SplitLinks(s, r, p, n, q, d, k, SplitParent(s, p, q, n, d, k), SplitLeft(s, n, k), SplitRight(s, n, k))
  }

  // --- merging ---

  /** The store after node l, child q of p, has taken over the children of its right sibling x. */
  ghost function MergeLinks(s: Store, r: Node, p: Node, l: Node, q: nat, x: Node, m: nat, pr: Rec, lr: Rec): Store {
    map y | y in s.Keys - {x} ::
      if y == l then lr
      else if y == p then pr
      else if y != r && s[y].parent == x then s[y].(parent := l, position := s[y].position + m)
      else if y != r && s[y].parent == p && s[y].position > q + 1 then s[y].(position := s[y].position - 1)
      else s[y]
  }

  ghost predicate CanMerge(s: Store, r: Node, p: Node, q: nat, l: Node, x: Node) {
    && r in s && Linked(s, r, null)
    && p in s && !p.leaf && NodeOk(s, r, null, p) && q + 1 < |s[p].kids| && l == s[p].kids[q] && x == s[p].kids[q + 1]
    && l in s && NodeOk(s, r, null, l)
    && x in s && NodeOk(s, r, null, x)
  }

  ghost function MergeLeft(s: Store, l: Node, d: Entry, x: Node): Rec
    requires l in s && x in s
  {
    s[l].(vals := s[l].vals + [d] + s[x].vals, kids := s[l].kids + s[x].kids,
          cont := s[l].cont + [d] + s[x].cont, rspine := s[x].rspine)
  }

  ghost function MergeParent(s: Store, p: Node, q: nat): Rec
    requires p in s && q < |s[p].vals| && q + 1 < |s[p].kids|
  {
    s[p].(vals := Remove(s[p].vals, q), kids := Remove(s[p].kids, q + 1))
  }

  ghost function MergeStore(s: Store, r: Node, p: Node, q: nat, l: Node, x: Node): Store
    requires CanMerge(s, r, p, q, l, x)
  {
    MergeLinks(s, r, p, l, q, x, |s[l].vals| + 1, MergeParent(s, p, q), MergeLeft(s, l, s[p].vals[q], x))
  }

  // --- changing the height ---

  /** An internal root hands its values and children to the new node p and keeps p as its only child. */
  ghost function AddLevel(s: Store, r: Node, p: Node): Store
    requires r in s
  {
    map x | x in s.Keys + {p} ::
      if x == p then Rec(r, 0, s[r].vals, s[r].kids, s[r].height, s[r].cont, true, true)
      else if x == r then s[r].(vals := [], kids := [p], height := s[r].height + 1)
      else if s[x].parent == r then s[x].(parent := p)
      else s[x]
  }

  /** An empty internal root takes over the values and children of its only child p. */
  ghost function DropLevel(s: Store, r: Node, p: Node): Store
    requires r in s && p in s
  {
    map x | x in s.Keys - {p} ::
      if x == r then s[r].(vals := s[p].vals, kids := s[p].kids, height := s[p].height)
      else if s[x].parent == p then s[x].(parent := r)
      else s[x]
  }

  /** A leaf r becomes the only child of the new root n. */
  ghost function NewRoot(s: Store, r: Node, n: Node): Store
    requires r in s
  {
    map[r := s[r].(parent := n, position := 0), n := Rec(r, 0, [], [r], 1, s[r].cont, true, true)]
  }

  // --- the heap against the store ---

  ghost predicate Holds(n: Node, c: Rec)
    reads n`count, n.values, n.children
  {
    && Built(n)
    && n.count == |c.vals| <= n.maxCount && n.values[..|c.vals|] == c.vals
    && |c.kids| <= n.children.Length && n.children[..|c.kids|] == c.kids
  }

  ghost predicate Fits(n: Node, c: Rec)
    reads n`parent, n`position, n`count, n.values, n.children
  {
    Holds(n, c) && n.parent == c.parent && n.position == c.position
  }

  lemma FitsParts(n: Node, c: Rec)
    requires Fits(n, c)
    ensures Built(n) && n.count == |c.vals| <= n.maxCount && n.values[..n.count] == c.vals
    ensures |c.kids| <= n.children.Length && n.children[..|c.kids|] == c.kids
    ensures n.parent == c.parent && n.position == c.position
  {
  }

  /** No two nodes share storage. */
  ghost predicate Apart(ns: set<Node>) {
    forall m, n :: m in ns && n in ns && m != n ==> m.values != n.values && m.children != n.children
  }

  ghost function Arrs(ns: set<Node>): set<object> {
    (set n | n in ns :: n.values) + (set n | n in ns :: n.children)
  }

  ghost predicate Matches(s: Store)
    reads s.Keys`parent, s.Keys`position, s.Keys`count, Arrs(s.Keys)
  {
    Apart(s.Keys) && forall n :: n in s ==> Fits(n, s[n])
  }
}
