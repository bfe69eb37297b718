/** What one structural step does to sizes, to the ends of the tree and to everything below the nodes it touches. */
module Steps {
  import opened Entries
  import opened Weaving
  import opened Trees
  import opened Splitting
  import opened Merging
  import opened Ranks
  import opened Rebalancing
  import opened Levels

  /** Node n (unless it is e) holds at least one value, and none more than it has room for; only a leaf root may be
      small. */
  ghost predicate SizeOk(n: Node, c: Rec, r: Node, m: nat, e: Node?) {
    |c.vals| <= n.maxCount <= m && (n != e ==> 0 < |c.vals|) && (n != r || !n.leaf ==> n.maxCount == m)
  }

  ghost predicate Sized(s: Store, r: Node, m: nat, e: Node?) {
    forall n {:trigger SizeOk(n, s[n], r, m, e)} :: n in s ==> SizeOk(n, s[n], r, m, e)
  }

  lemma SizeAt(s: Store, r: Node, m: nat, e: Node?, n: Node)
    requires Sized(s, r, m, e) && n in s
    ensures SizeOk(n, s[n], r, m, e)
  {
  }

  /** n is the leaf at the right end of the tree. */
  ghost predicate IsRightmost(s: Store, n: Node?) {
    n in s && n.leaf && s[n].rspine
  }

  /** Nodes lower than h are as before and lie where they lay. */
  ghost predicate Below(s: Store, r: Node, s': Store, r': Node, h: nat) {
    forall x :: x in s && s[x].height < h ==>
      x in s' && s'[x].vals == s[x].vals && s'[x].kids == s[x].kids && s'[x].cont == s[x].cont
        && s'[x].height == s[x].height
      && Off(s', r', x) == Off(s, r, x)
  }

  lemma SizedAll(s: Store, r: Node, m: nat, e: Node?)
    requires forall n :: n in s ==> SizeOk(n, s[n], r, m, e)
    ensures Sized(s, r, m, e)
  {
  }

  // --- splitting ---

  lemma SplitSized(s: Store, r: Node, m: nat, p: Node, q: nat, n: Node, d: Node, ip: nat)
    requires 3 <= m && n in s && |s[n].vals| == m && n.maxCount == m && d.maxCount == m && ip <= m && p in s
    requires CanSplit(s, r, p, q, n, d, SplitPoint(m, m, ip)) && Sized(s, r, m, p) && |s[p].vals| < m
    ensures Sized(SplitStore(s, r, p, q, n, d, SplitPoint(m, m, ip)), r, m, if ip > SplitPoint(m, m, ip) then d else n)
  {
    var k := SplitPoint(m, m, ip);
    SplitSelf(s, r, p, q, n, d, k);
    var s' := SplitStore(s, r, p, q, n, d, k);
    assert p != r || !p.leaf;
    assert |s'[n].vals| == k && |s'[d].vals| == m - k - 1 && |s'[p].vals| == |s[p].vals| + 1;
    hide SplitStore, CanSplit, Sized;
    var e := if ip > k then d else n;
    assert Sized(s', r, m, e) by {
      forall x | x in s'
        ensures SizeOk(x, s'[x], r, m, e)
      {
        if x != d {
          SizeAt(s, r, m, p, x);
          if x != n && x != p { SplitOther(s, r, p, q, n, d, k, x); }
        }
      }
      SizedAll(s', r, m, e);
    }
  }

  lemma SplitBelow(s: Store, r: Node, p: Node, q: nat, n: Node, d: Node, k: nat)
    requires CanSplit(s, r, p, q, n, d, k)
    ensures n in s && p in s && s[n].height < s[p].height
    ensures Below(s, r, SplitStore(s, r, p, q, n, d, k), r, s[n].height)
  {
    assert n in s && p in s && s[n].height < s[p].height by { assert KidOk(s, r, p, n, q); }
    hide SplitStore, CanSplit;
    var s' := SplitStore(s, r, p, q, n, d, k);
    forall x | x in s && s[x].height < s[n].height
      ensures x in s' && s'[x].vals == s[x].vals && s'[x].kids == s[x].kids && s'[x].cont == s[x].cont
      ensures s'[x].height == s[x].height
      ensures Off(s', r, x) == Off(s, r, x)
    {
      SplitOther(s, r, p, q, n, d, k, x);
      SplitOff(s, r, p, q, n, d, k, x);
    }
  }

  lemma SplitEnds(s: Store, r: Node, p: Node, q: nat, n: Node, d: Node, k: nat, rm: Node?)
    requires CanSplit(s, r, p, q, n, d, k) && IsRightmost(s, rm)
    ensures IsRightmost(SplitStore(s, r, p, q, n, d, k), if rm == n then d else rm)
  {
    SplitSelf(s, r, p, q, n, d, k);
    if rm != n {
      SplitOther(s, r, p, q, n, d, k, rm);
    }
  }

  lemma SplitHeights(s: Store, r: Node, p: Node, q: nat, n: Node, d: Node, k: nat)
    requires CanSplit(s, r, p, q, n, d, k)
    ensures
      var s' := SplitStore(s, r, p, q, n, d, k);
      && r in s && n in s && r in s' && s'[r].height == s[r].height && n in s' && s'[n].height == s[n].height && d in s'
      && s'[d].height == s[n].height
  {
    SplitSelf(s, r, p, q, n, d, k);
    if r != p {
      SplitOther(s, r, p, q, n, d, k, r);
    }
  }

  // --- rebalancing ---

  lemma DealCounts(c: Rec, pc: Rec, q: nat, xc: Rec, k: nat)
    requires q < |pc.vals| && k < |c.vals| + 1 + |xc.vals|
    ensures |DealLeft(c, pc.vals[q], xc, k).vals| == k
    ensures |DealRight(c, pc.vals[q], xc, k).vals| == |c.vals| + |xc.vals| - k
    ensures |DealParent(pc, q, c, xc, k).vals| == |pc.vals|
  {
  }

  lemma DealSized(s: Store, r: Node, m: nat, p: Node, q: nat, l: Node, x: Node, k: nat, e: Node?)
    requires CanRebalance(s, r, p, q, l, x, k) && l in s && x in s && Sized(s, r, m, e)
    requires (e == null || e == l || e == x)
    requires 1 <= k <= m && 1 <= |s[l].vals| + |s[x].vals| - k <= m
    ensures Sized(Redistribute(s, r, p, q, l, x, k), r, m, null)
  {
    MergeSelf(s, r, p, q, l, x);
    SizeAt(s, r, m, e, l);
    SizeAt(s, r, m, e, x);
    hide Redistribute, CanRebalance, CanMerge, MergeStore, Sized;
    var s' := Redistribute(s, r, p, q, l, x, k);
    RedistributeRecords(s, r, p, q, l, x, k);
    DealCounts(s[l], s[p], q, s[x], k);
    hide DealLeft, DealRight, DealParent;
    forall y | y in s'
      ensures SizeOk(y, s'[y], r, m, null)
    {
      SizeAt(s, r, m, e, y);
      if y != l && y != x && y != p { RedistributeOther(s, r, p, q, l, x, k, y); }
    }
    SizedAll(s', r, m, null);
  }

  lemma DealBelow(s: Store, r: Node, p: Node, q: nat, l: Node, x: Node, k: nat)
    requires CanRebalance(s, r, p, q, l, x, k)
    ensures l in s && Below(s, r, Redistribute(s, r, p, q, l, x, k), r, s[l].height)
  {
    MergeSelf(s, r, p, q, l, x);
    hide Redistribute, CanRebalance, CanMerge, MergeStore;
    var s' := Redistribute(s, r, p, q, l, x, k);
    forall y | y in s && s[y].height < s[l].height
      ensures y in s' && s'[y].vals == s[y].vals && s'[y].kids == s[y].kids && s'[y].cont == s[y].cont
      ensures s'[y].height == s[y].height
      ensures Off(s', r, y) == Off(s, r, y)
    {
      RedistributeOther(s, r, p, q, l, x, k, y);
      RedistributeOff(s, r, p, q, l, x, k, y);
    }
  }

  lemma DealEnds(s: Store, r: Node, p: Node, q: nat, l: Node, x: Node, k: nat, y: Node)
    requires CanRebalance(s, r, p, q, l, x, k) && y in s
    ensures y in Redistribute(s, r, p, q, l, x, k) && SameSpine(Redistribute(s, r, p, q, l, x, k)[y], s[y])
  {
    if y != p && y != l && y != x {
      RedistributeOther(s, r, p, q, l, x, k, y);
    } else {
      DealEndsTouched(s, r, p, q, l, x, k);
    }
  }

  lemma NeighbourSpines(s: Store, r: Node, p: Node, q: nat, l: Node, x: Node)
    requires CanMerge(s, r, p, q, l, x)
    ensures l in s && x in s && !s[l].rspine && !s[x].lspine
  {
    MergeSelf(s, r, p, q, l, x);
  }

  lemma DealEndsTouched(s: Store, r: Node, p: Node, q: nat, l: Node, x: Node, k: nat)
    requires CanRebalance(s, r, p, q, l, x, k)
    ensures
      var s' := Redistribute(s, r, p, q, l, x, k);
      && p in s && l in s && x in s && p in s' && l in s' && x in s'
      && SameSpine(s'[p], s[p]) && SameSpine(s'[l], s[l]) && SameSpine(s'[x], s[x])
  {
    hide CanMerge, MergeStore, SplitStore, CanSplit, Flat;
    RebalanceReady(s, r, p, q, l, x, k);
    MergeSelf(s, r, p, q, l, x);
    NeighbourSpines(s, r, p, q, l, x);
    SplitSelf(MergeStore(s, r, p, q, l, x), r, p, q, l, x, k);
  }

  // --- merging ---

  lemma JoinSized(s: Store, r: Node, m: nat, p: Node, q: nat, l: Node, x: Node, e: Node?)
    requires CanMerge(s, r, p, q, l, x) && l in s && x in s && Sized(s, r, m, e) && (e == null || e == l || e == x)
    requires |s[l].vals| + 1 + |s[x].vals| <= m
    ensures Sized(MergeStore(s, r, p, q, l, x), r, m, p)
  {
    MergeSelf(s, r, p, q, l, x);
    hide CanMerge, MergeStore, Sized;
    var s' := MergeStore(s, r, p, q, l, x);
    SizeAt(s, r, m, e, l);
    forall y | y in s'
      ensures SizeOk(y, s'[y], r, m, p)
    {
      SizeAt(s, r, m, e, y);
      if y != l && y != p { MergeOther(s, r, p, q, l, x, y); }
    }
    SizedAll(s', r, m, p);
  }

  lemma JoinBelow(s: Store, r: Node, p: Node, q: nat, l: Node, x: Node)
    requires CanMerge(s, r, p, q, l, x)
    ensures l in s && Below(s, r, MergeStore(s, r, p, q, l, x), r, s[l].height)
  {
    MergeSelf(s, r, p, q, l, x);
    hide CanMerge, MergeStore;
    var s' := MergeStore(s, r, p, q, l, x);
    forall y | y in s && s[y].height < s[l].height
      ensures y in s' && s'[y].vals == s[y].vals && s'[y].kids == s[y].kids && s'[y].cont == s[y].cont
      ensures s'[y].height == s[y].height
      ensures Off(s', r, y) == Off(s, r, y)
    {
      MergeOther(s, r, p, q, l, x, y);
      MergeOff(s, r, p, q, l, x, y);
    }
  }

  lemma JoinEnds(s: Store, r: Node, p: Node, q: nat, l: Node, x: Node, rm: Node?)
    requires CanMerge(s, r, p, q, l, x) && IsRightmost(s, rm)
    ensures IsRightmost(MergeStore(s, r, p, q, l, x), if rm == x then l else rm)
  {
    MergeSelf(s, r, p, q, l, x);
    assert !s[l].rspine;
    if rm != x {
      MergeOther(s, r, p, q, l, x, rm);
    }
  }

  // --- the insertion point ---

  /** Position i' of n' is the same gap as position i of n before: the same rank in a leaf, the same child above. */
  ghost predicate SameGap(s: Store, r: Node, n: Node, i: nat, s': Store, r': Node, n': Node, i': nat) {
    && n in s && n' in s' && s'[n'].height == s[n].height && n'.leaf == n.leaf && i' <= |s'[n'].vals|
    && (n.leaf ==> Off(s', r', n') + i' == Off(s, r, n) + i)
    && (!n.leaf ==> i < |s[n].kids| && i' < |s'[n'].kids| && s'[n'].kids[i'] == s[n].kids[i])
  }

  ghost function GapNode(l: Node, x: Node, k: nat, j: nat): Node {
    if j <= k then l else x
  }

  ghost function GapPos(k: nat, j: nat): nat {
    if j <= k then j else j - (k + 1)
  }

  lemma LeafCont(s: Store, r: Node, n: Node)
    requires Linked(s, r, null) && n in s && n.leaf
    ensures s[n].cont == s[n].vals
  {
    LinkedNode(s, r, null, n);
  }

  lemma SplitShape(s: Store, r: Node, p: Node, q: nat, n: Node, d: Node, k: nat)
    requires CanSplit(s, r, p, q, n, d, k)
    ensures
      var s' := SplitStore(s, r, p, q, n, d, k);
      && n in s && n in s' && d in s' && s'[n].height == s'[d].height == s[n].height && n.leaf == d.leaf
      && |s[n].kids| == (if n.leaf then 0 else |s[n].vals| + 1) && |s'[n].vals| == k
      && |s'[d].vals| == |s[n].vals| - (k + 1)
      && s'[n].kids == Take(s[n].kids, k + 1) && s'[d].kids == Drop(s[n].kids, k + 1)
      && (n.leaf ==> |SplitLeft(s, n, k).cont| == k)
  {
    SplitSelf(s, r, p, q, n, d, k);
    hide SplitStore, Linked;
  }

  lemma SplitGap(s: Store, r: Node, p: Node, q: nat, n: Node, d: Node, k: nat, i: nat)
    requires CanSplit(s, r, p, q, n, d, k) && n in s && i <= |s[n].vals|
    ensures SameGap(s, r, n, i, SplitStore(s, r, p, q, n, d, k), r, GapNode(n, d, k, i), GapPos(k, i))
  {
    hide SplitStore, Off;
    SplitShape(s, r, p, q, n, d, k);
    SplitOff(s, r, p, q, n, d, k, n);
    SplitOffNew(s, r, p, q, n, d, k);
    hide SplitLeft, CanSplit;
  }

  lemma DealGapLeaf(s: Store, r: Node, p: Node, q: nat, l: Node, x: Node, k: nat)
    requires CanRebalance(s, r, p, q, l, x, k) && l.leaf
    ensures
      var s' := Redistribute(s, r, p, q, l, x, k);
      && l in s && x in s && l in s' && x.leaf && Off(s', r, l) == Off(s, r, l) && Off(s', r, x) == Off(s, r, l) + k + 1
      && Off(s, r, x) == Off(s, r, l) + |s[l].vals| + 1
  {
    hide Redistribute, CanMerge, MergeStore, Linked;
    MergeSelf(s, r, p, q, l, x);
    assert Linked(s, r, null) by { MergeLinks0(s, r, p, q, l, x); }
    LeafCont(s, r, l);
    MergeOff(s, r, p, q, l, x, l);
    RedistributeOff(s, r, p, q, l, x, k, l);
    RedistributeOffRight(s, r, p, q, l, x, k);
    RedistributeRecords(s, r, p, q, l, x, k);
    RedistributeLinked(s, r, p, q, l, x, k);
    LeafCont(Redistribute(s, r, p, q, l, x, k), r, l);
    DealCounts(s[l], s[p], q, s[x], k);
  }

  lemma MergeLinks0(s: Store, r: Node, p: Node, q: nat, l: Node, x: Node)
    requires CanMerge(s, r, p, q, l, x)
    ensures Linked(s, r, null) && l in s && x in s && p in s && NodeOk(s, r, null, l) && NodeOk(s, r, null, x)
    ensures NodeOk(s, r, null, p)
  {
  }

  lemma DealtKid(c: Rec, d: Entry, xc: Rec, k: nat, right: bool, i: nat)
    requires |c.kids| == |c.vals| + 1 && |xc.kids| == |xc.vals| + 1 && k <= |c.vals| + |xc.vals|
    requires i < |if right then xc.kids else c.kids|
    ensures
      var j := if right then |c.vals| + 1 + i else i;
      var kid := if right then xc.kids[i] else c.kids[i];
      if j <= k then j < |DealLeft(c, d, xc, k).kids| && DealLeft(c, d, xc, k).kids[j] == kid
      else j - (k + 1) < |DealRight(c, d, xc, k).kids| && DealRight(c, d, xc, k).kids[j - (k + 1)] == kid
  {
    var w := c.kids + xc.kids;
    assert w[if right then |c.vals| + 1 + i else i] == if right then xc.kids[i] else c.kids[i];
  }

  lemma DealShape(s: Store, r: Node, p: Node, q: nat, l: Node, x: Node, k: nat)
    requires CanRebalance(s, r, p, q, l, x, k)
    ensures
      var s' := Redistribute(s, r, p, q, l, x, k);
      && l in s && x in s && l in s' && x in s' && s'[l].height == s[l].height == s'[x].height == s[x].height
      && l.leaf == x.leaf
      && |s[l].kids| == (if l.leaf then 0 else |s[l].vals| + 1)
      && |s[x].kids| == (if x.leaf then 0 else |s[x].vals| + 1)
      && |s'[l].vals| == k && |s'[x].vals| == |s[l].vals| + |s[x].vals| - k
  {
    MergeLinks0(s, r, p, q, l, x);
    hide Redistribute, CanMerge, MergeStore, Linked;
    MergeSelf(s, r, p, q, l, x);
    RedistributeRecords(s, r, p, q, l, x, k);
    DealCounts(s[l], s[p], q, s[x], k);
    hide DealLeft, DealRight, DealParent;
    DealEnds(s, r, p, q, l, x, k, l);
    DealEnds(s, r, p, q, l, x, k, x);
  }

  lemma DealGapInner(s: Store, r: Node, p: Node, q: nat, l: Node, x: Node, k: nat, right: bool, i: nat)
    requires CanRebalance(s, r, p, q, l, x, k) && l in s && x in s && i <= |s[if right then x else l].vals| && !l.leaf
    ensures
      var s' := Redistribute(s, r, p, q, l, x, k);
      var j, n := if right then |s[l].vals| + 1 + i else i, if right then x else l;
      l in s' && x in s' && i < |s[n].kids| && GapPos(k, j) < |s'[GapNode(l, x, k, j)].kids|
        && s'[GapNode(l, x, k, j)].kids[GapPos(k, j)] == s[n].kids[i]
  {
    hide Redistribute, CanMerge, DealLeft, DealRight, DealParent;
    DealShape(s, r, p, q, l, x, k);
    RedistributeRecords(s, r, p, q, l, x, k);
    DealtKid(s[l], s[p].vals[q], s[x], k, right, i);
  }

  /** Position i in one of two neighbours, counted from the start of the left one. */
  lemma DealGap(s: Store, r: Node, p: Node, q: nat, l: Node, x: Node, k: nat, right: bool, i: nat)
    requires CanRebalance(s, r, p, q, l, x, k) && l in s && x in s && i <= |s[if right then x else l].vals|
    requires |s[l].vals| + |s[x].vals| >= k
    ensures
      var j := if right then |s[l].vals| + 1 + i else i;
      SameGap(s, r, if right then x else l, i, Redistribute(s, r, p, q, l, x, k), r, GapNode(l, x, k, j), GapPos(k, j))
  {
    hide Redistribute, CanRebalance, Off;
    DealShape(s, r, p, q, l, x, k);
    if l.leaf {
      DealGapLeaf(s, r, p, q, l, x, k);
    } else {
      DealGapInner(s, r, p, q, l, x, k, right, i);
    }
  }

  // --- at the root ---

  lemma AddLevelSized(s: Store, r: Node, m: nat, p: Node)
    requires CanAddLevel(s, r, p) && Sized(s, r, m, null) && p.maxCount == m
    ensures Sized(AddLevel(s, r, p), r, m, r)
  {
    var s' := AddLevel(s, r, p);
    SizeAt(s, r, m, null, r);
    forall x | x in s'
      ensures SizeOk(x, s'[x], r, m, r)
    {
      if x != p { SizeAt(s, r, m, null, x); }
    }
    hide Sized;
    SizedAll(s', r, m, r);
  }

  lemma AddLevelBelow(s: Store, r: Node, p: Node)
    requires CanAddLevel(s, r, p)
    ensures Below(s, r, AddLevel(s, r, p), r, s[r].height)
  {
    var s' := AddLevel(s, r, p);
    forall x | x in s && s[x].height < s[r].height
      ensures x in s' && s'[x].vals == s[x].vals && s'[x].kids == s[x].kids && s'[x].cont == s[x].cont
      ensures s'[x].height == s[x].height
      ensures Off(s', r, x) == Off(s, r, x)
    {
      AddLevelOff(s, r, p, x);
    }
  }

  lemma AddLevelStep(s: Store, r: Node, m: nat, p: Node, rm: Node?, i: nat)
    requires CanAddLevel(s, r, p) && Sized(s, r, m, null) && p.maxCount == m && IsRightmost(s, rm) && i <= |s[r].vals|
    ensures
      var s' := AddLevel(s, r, p);
      && Linked(s', r, null) && Sized(s', r, m, r) && s'[r].cont == s[r].cont && IsRightmost(s', rm)
      && s'.Keys == s.Keys + {p}
      && Below(s, r, s', r, s[r].height) && SameGap(s, r, r, i, s', r, p, i) && s'[r].height == s[r].height + 1
      && s'[p].vals == s[r].vals && s'[r].kids == [p] && s'[r].vals == [] && s'[p].parent == r && s'[p].position == 0
  {
    hide *;
    AddLevelLinked(s, r, p);
    AddLevelSized(s, r, m, p);
    AddLevelBelow(s, r, p);
    AddLevelRecs(s, r, p);
    AddLevelRight(s, r, p, rm);
    AddLevelGap(s, r, p, i);
  }

  lemma AddLevelRecs(s: Store, r: Node, p: Node)
    requires CanAddLevel(s, r, p)
    ensures
      var s' := AddLevel(s, r, p);
      && r in s && r in s' && p in s' && s'[r].cont == s[r].cont && s'.Keys == s.Keys + {p}
      && s'[r].height == s[r].height + 1
      && s'[p].vals == s[r].vals && s'[r].kids == [p] && s'[r].vals == [] && s'[p].parent == r && s'[p].position == 0
  {
  }

  lemma AddLevelRight(s: Store, r: Node, p: Node, rm: Node?)
    requires CanAddLevel(s, r, p) && IsRightmost(s, rm)
    ensures IsRightmost(AddLevel(s, r, p), rm)
  {
    hide Linked;
  }

  lemma AddLevelGap(s: Store, r: Node, p: Node, i: nat)
    requires CanAddLevel(s, r, p) && i <= |s[r].vals|
    ensures SameGap(s, r, r, i, AddLevel(s, r, p), r, p, i)
  {
    LinkedNode(s, r, null, r);
    hide Linked, Off;
  }

  lemma NewRootStep(s: Store, r: Node, m: nat, n: Node, i: nat)
    requires Linked(s, r, null) && r.leaf && !n.leaf && Sized(s, r, m, null) && r.maxCount == n.maxCount == m
    requires i <= |s[r].vals|
    ensures
      var s' := NewRoot(s, r, n);
      && Linked(s', n, null) && Sized(s', n, m, n) && s'[n].cont == s[r].cont && IsRightmost(s', r) && s'.Keys == {r, n}
      && Below(s, r, s', n, 0) && SameGap(s, r, r, i, s', n, r, i) && s'[n].height == s[r].height + 1
      && s'[r].vals == s[r].vals && s'[n].kids == [r] && s'[n].vals == [] && s'[r].parent == n && s'[r].position == 0
  {
    NewRootLinked(s, r, n);
    LeafRootOnly(s, r);
    LinkedNode(s, r, null, r);
    SizeAt(s, r, m, null, r);
  }
}
