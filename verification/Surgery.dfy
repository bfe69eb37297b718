/** The in-place node operations, seen as steps from one store to the next. */
module Surgery {
  import opened Entries
  import opened Weaving
  import opened Sequences
  import opened Trees
  import opened Splitting
  import opened Merging
  import opened Rebalancing

  lemma SameFits(n: Node, a: Rec, b: Rec)
    requires Fits(n, a) && SameHeap(b, a)
    ensures Fits(n, b)
  {
  }

  lemma FitsKids(n: Node, c: Rec, vals: seq<Entry>, kids: seq<Node>)
    requires Built(n) && n.parent == c.parent && n.position == c.position && n.count <= n.maxCount
    requires n.values[..n.count] == vals && c.vals == vals && c.kids == (if n.leaf then [] else kids)
    requires !n.leaf ==> n.children[..n.count + 1] == kids
    ensures Fits(n, c)
  {
  }

  lemma FitsSame(n: Node, c: Rec, e: Rec)
    requires Built(n) && SameHeap(c, e) && n.parent == e.parent && n.position == e.position
    requires n.count == |e.vals| <= n.maxCount && n.values[..n.count] == e.vals
    requires if n.leaf then e.kids == [] else e.kids == n.children[..n.count + 1]
    ensures Fits(n, c)
  {
  }

  lemma MatchesAll(s: Store)
    requires Apart(s.Keys) && forall x :: x in s ==> Fits(x, s[x])
    ensures Matches(s)
  {
  }

  lemma MatchesAt(s: Store, x: Node)
    requires Matches(s) && x in s
    ensures Fits(x, s[x]) && Apart(s.Keys)
  {
  }

  /** The children lists of two different nodes have nothing in common. */
  lemma KidsApart(s: Store, r: Node, p: Node, n: Node)
    requires r in s && p in s && n in s && DownOk(s, r, n) && DownOk(s, r, p) && s[n].height != s[p].height
    ensures DisjointKids(s[n].kids, s[p].kids)
    ensures forall i :: 0 <= i < |s[n].kids| ==> s[n].kids[i] in s && s[n].kids[i] != n
  {
    forall i | 0 <= i < |s[n].kids|
      ensures s[n].kids[i] in s && s[n].kids[i] != n
      ensures forall j :: 0 <= j < |s[p].kids| ==> s[n].kids[i] != s[p].kids[j]
    {
      assert KidOk(s, r, n, s[n].kids[i], i);
      forall j | 0 <= j < |s[p].kids|
        ensures s[n].kids[i] != s[p].kids[j]
      {
        assert KidOk(s, r, p, s[p].kids[j], j);
      }
    }
  }

  // --- splitting ---

  /** What Split needs to know about the records of n and its parent p; nothing here looks at the heap. */
  ghost predicate SplitRecs(n: Node, dest: Node, p: Node, c: Rec, pc: Rec, k: int) {
    && n.leaf == dest.leaf && !p.leaf && n.maxCount == dest.maxCount && n != p && dest != p && dest != n
    && c.parent == p && 0 <= k < |c.vals| && c.position < |pc.kids| && pc.kids[c.position] == n
    && |c.kids| == (if n.leaf then 0 else |c.vals| + 1) && |pc.kids| == |pc.vals| + 1 && |pc.vals| < p.maxCount
    && Distinct(c.kids) && Distinct(pc.kids) && DisjointKids(c.kids, pc.kids)
    && n !in c.kids && p !in c.kids && p !in pc.kids && dest !in c.kids && dest !in pc.kids
  }

  lemma RecsReady(n: Node, dest: Node, p: Node, c: Rec, pc: Rec, k: int)
    requires SplitRecs(n, dest, p, c, pc, k) && Fits(n, c) && Fits(p, pc) && Built(dest) && dest.count == 0
    requires Apart({n, dest, p})
    ensures n.SplitReady(dest, pc.kids, c.kids)
  {
  }

  /** The records of the two halves and of the parent, as far as the heap is concerned. */
  ghost function CutLeft(c: Rec, k: nat): Rec {
    if k < |c.vals| then c.(vals := c.vals[..k], kids := Take(c.kids, k + 1)) else c
  }

  ghost function CutRight(c: Rec, k: nat): Rec {
    if k < |c.vals| then c.(position := c.position + 1, vals := c.vals[k + 1..], kids := Drop(c.kids, k + 1)) else c
  }

  ghost function CutParent(pc: Rec, c: Rec, dest: Node, k: nat): Rec {
    if k < |c.vals| && c.position <= |pc.vals| && c.position < |pc.kids| then
      pc.(vals := Insert(pc.vals, c.position, c.vals[k]), kids := Insert(pc.kids, c.position + 1, dest))
    else pc
  }

  lemma CutHeap(leaf: bool, c: Rec, pc: Rec, dest: Node, k: nat)
    requires k < |c.vals| && c.position < |pc.kids| && c.position <= |pc.vals| && |c.kids| == if leaf then 0
      else |c.vals| + 1
    ensures SameHeap(CutLeft(c, k), c.(vals := c.vals[..k], kids := if leaf then [] else c.kids[..k + 1]))
    ensures SameHeap(CutRight(c, k),
      c.(position := c.position + 1, vals := c.vals[k + 1..], kids := if leaf then [] else c.kids[k + 1..]))
    ensures SameHeap(CutParent(pc, c, dest, k),
      pc.(vals := Insert(pc.vals, c.position, c.vals[k]), kids := Insert(pc.kids, c.position + 1, dest)))
  {
  }

  lemma SplitDone(n: Node, dest: Node, p: Node, c: Rec, pc: Rec, k: nat)
    requires SplitRecs(n, dest, p, c, pc, k) && Built(n) && Built(dest) && Built(p) && c.position <= |pc.vals|
    requires n.parent == c.parent == dest.parent && n.position == c.position && dest.position == c.position + 1
    requires p.parent == pc.parent && p.position == pc.position
    requires n.count == k <= n.maxCount && dest.count == |c.vals| - (k + 1) <= dest.maxCount
    requires p.count == |pc.vals| + 1 <= p.maxCount
    requires n.values[..k] == c.vals[..k] && dest.values[..dest.count] == c.vals[k + 1..]
    requires p.values[..p.count] == Insert(pc.vals, c.position, c.vals[k])
    requires !n.leaf ==> n.children[..k + 1] == c.kids[..k + 1] && dest.children[..dest.count + 1] == c.kids[k + 1..]
    requires p.children[..p.count + 1] == Insert(pc.kids, c.position + 1, dest)
    ensures Fits(n, CutLeft(c, k)) && Fits(dest, CutRight(c, k)) && Fits(p, CutParent(pc, c, dest, k))
  {
    CutHeap(n.leaf, c, pc, dest, k);
    hide CutLeft, CutRight, CutParent, Fits, SameHeap;
    FitsSame(n, CutLeft(c, k), c.(vals := c.vals[..k], kids := if n.leaf then [] else c.kids[..k + 1]));
    FitsSame(dest, CutRight(c, k),
      c.(position := c.position + 1, vals := c.vals[k + 1..], kids := if n.leaf then [] else c.kids[k + 1..]));
    FitsSame(p, CutParent(pc, c, dest, k),
      pc.(vals := Insert(pc.vals, c.position, c.vals[k]), kids := Insert(pc.kids, c.position + 1, dest)));
  }

  /** Node.Split in terms of the records of the three nodes it rebuilds. */
  method SplitCore(n: Node, dest: Node, insertPosition: nat, ghost p: Node, ghost c: Rec, ghost pc: Rec, ghost k: nat)
    requires SplitRecs(n, dest, p, c, pc, k) && k == SplitPoint(|c.vals|, n.maxCount, insertPosition)
    requires Fits(n, c) && Fits(p, pc) && Built(dest) && dest.count == 0 && Apart({n, dest, p})
    requires Adopted(n, c.kids) && InOrder(pc.kids)
    modifies n`count, dest`count, p`count, n.values, dest.values, p.values, n.children, dest.children, p.children
    modifies pc.kids`position, dest`position, dest`parent, c.kids`parent, c.kids`position
    ensures Fits(n, CutLeft(c, k)) && Fits(dest, CutRight(c, k)) && Fits(p, CutParent(pc, c, dest, k))
    ensures SplitKidsLinked(n, dest, c.kids, k, pc.kids, c.position)
  {
    RecsReady(n, dest, p, c, pc, k);
    hide Node.SplitReady, CutLeft, CutRight, CutParent;
    assert n.count == |c.vals| && n.values[..n.count] == c.vals && p.count == |pc.vals|
      && p.values[..p.count] == pc.vals;
    assert n.position == c.position && n.parent == c.parent == p && pc.kids[c.position] == n;
    n.Split(dest, insertPosition, pc.kids, c.kids);
    assert pc.kids[c.position].position == c.position;
    hide *;
    SplitDone(n, dest, p, c, pc, k);
  }

  /** The same among all nodes: the others keep what they hold, and only the children listed are re-linked. */
  method SplitTrio(n: Node, dest: Node, insertPosition: nat, ghost p: Node, ghost c: Rec, ghost pc: Rec, ghost k: nat,
        ghost s: Store, ghost all: set<Node>)
    requires SplitRecs(n, dest, p, c, pc, k) && k == SplitPoint(|c.vals|, n.maxCount, insertPosition)
    requires Fits(n, c) && Fits(p, pc) && Built(dest) && dest.count == 0 && Apart(all) && n in all && dest in all
    requires p in all
    requires (forall x :: x in c.kids ==> x in all) && (forall x :: x in pc.kids ==> x in all)
    requires Adopted(n, c.kids) && InOrder(pc.kids)
    requires forall y :: y in s && y in all ==> Holds(y, s[y])
    modifies all`parent, all`position, all`count, Arrs(all)
    ensures Fits(n, CutLeft(c, k)) && Fits(dest, CutRight(c, k)) && Fits(p, CutParent(pc, c, dest, k))
    ensures SplitKidsLinked(n, dest, c.kids, k, pc.kids, c.position)
    ensures forall x :: x in s && x in all && x != n && x != p && x != dest ==> Holds(x, s[x])
    ensures forall x :: x in all && x != dest && x !in c.kids ==> x.parent == old(x.parent)
    ensures forall x :: x in all && x != dest && x !in c.kids && x !in pc.kids ==> x.position == old(x.position)
  {
    hide Fits, Holds, CutLeft, CutRight, CutParent, SplitRecs, SplitKidsLinked, Adopted, InOrder;
    SplitCore(n, dest, insertPosition, p, c, pc, k);
  }

  /** How the children of n and of its parent are linked after the split. */
  ghost predicate SplitKidsLinked(n: Node, dest: Node, ks: seq<Node>, k: nat, pk: seq<Node>, q: nat)
    reads ks, pk
  {
    && (forall j :: 0 <= j < |ks| ==> ks[j].parent == if j <= k then n else dest)
    && (forall j :: 0 <= j < |ks| ==> ks[j].position == if j <= k then j else j - (k + 1))
    && (forall j :: 0 <= j < |pk| ==> pk[j].position == if j <= q then j else j + 1)
  }

  lemma SplitHeap(s: Store, r: Node, p: Node, q: nat, n: Node, d: Node, k: nat)
    requires CanSplit(s, r, p, q, n, d, k)
    ensures
      var s' := SplitStore(s, r, p, q, n, d, k);
      && s'.Keys == s.Keys + {d} && n in s' && d in s' && p in s'
      && SameHeap(s'[n], CutLeft(s[n], k)) && SameHeap(s'[d], CutRight(s[n], k))
      && SameHeap(s'[p], CutParent(s[p], s[n], d, k))
  {
    SplitSelf(s, r, p, q, n, d, k);
    hide SplitStore, Linked, Flat;
  }

  lemma PrepareSplit(s: Store, r: Node, n: Node, dest: Node, p: Node, k: nat)
    requires n in s && p == s[n].parent && CanSplit(s, r, p, s[n].position, n, dest, k)
    requires dest.maxCount == n.maxCount && |s[p].vals| < p.maxCount
    ensures SplitRecs(n, dest, p, s[n], s[p], k)
  {
    hide Linked, ContOk;
    assert KidOk(s, r, p, n, s[n].position);
    KidsDistinct(s, r, p);
    KidsDistinct(s, r, n);
    KidsApart(s, r, p, n);
    KidsApart(s, r, n, p);
    forall i | 0 <= i < |s[n].kids|
      ensures s[n].kids[i] in s && s[n].kids[i] != p
    {
      assert KidOk(s, r, n, s[n].kids[i], i);
    }
  }

  /** A node that the split only re-links, or leaves alone, fits its new record. */
  lemma SplitRest(s: Store, r: Node, p: Node, n: Node, d: Node, k: nat, x: Node)
    requires n in s && p == s[n].parent && CanSplit(s, r, p, s[n].position, n, d, k) && x in s && x != n && x != p
    requires SplitKidsLinked(n, d, s[n].kids, k, s[p].kids, s[n].position) && Holds(x, s[x])
    requires x !in s[n].kids ==> x.parent == s[x].parent
    requires x !in s[n].kids && x !in s[p].kids ==> x.position == s[x].position
    ensures x in SplitStore(s, r, p, s[n].position, n, d, k) && Fits(x, SplitStore(s, r, p, s[n].position, n, d, k)[x])
  {
    hide CanSplit, SplitStore, Linked, ContOk, NodeOk, DownOk, UpOk, Built;
    SplitLinkedParts(s, r, p, s[n].position, n, d, k, x);
    WhoseKid(s, r, n, x);
    WhoseKid(s, r, p, x);
    SplitOther(s, r, p, s[n].position, n, d, k, x);
  }

  lemma SplitLinkedParts(s: Store, r: Node, p: Node, q: nat, n: Node, d: Node, k: nat, x: Node)
    requires CanSplit(s, r, p, q, n, d, k) && x in s
    ensures r in s && p in s && n in s && DownOk(s, r, n) && DownOk(s, r, p) && UpOk(s, r, x) && k < |s[n].vals|
    ensures |s[n].kids| == (if n.leaf then 0 else |s[n].vals| + 1) && |s[p].kids| == |s[p].vals| + 1
    ensures q < |s[p].kids| && s[p].kids[q] == n
  {
    LinkedNode(s, r, null, x);
    hide Linked, ContOk, UpOk;
  }

  lemma SplitFits(s: Store, r: Node, p: Node, n: Node, d: Node, k: nat)
    requires n in s && p == s[n].parent && CanSplit(s, r, p, s[n].position, n, d, k)
    requires Fits(n, CutLeft(s[n], k)) && Fits(d, CutRight(s[n], k)) && Fits(p, CutParent(s[p], s[n], d, k))
    ensures
      var s' := SplitStore(s, r, p, s[n].position, n, d, k);
      && s'.Keys == s.Keys + {d} && Fits(n, s'[n]) && Fits(d, s'[d]) && Fits(p, s'[p])
  {
    var s' := SplitStore(s, r, p, s[n].position, n, d, k);
    SplitHeap(s, r, p, s[n].position, n, d, k);
    hide SplitStore, Linked, CanSplit, Holds, Fits, CutLeft, CutRight, CutParent, SameHeap;
    SameFits(n, CutLeft(s[n], k), s'[n]);
    SameFits(d, CutRight(s[n], k), s'[d]);
    SameFits(p, CutParent(s[p], s[n], d, k), s'[p]);
  }

  lemma SplitMatches(s: Store, r: Node, p: Node, n: Node, d: Node, k: nat)
    requires n in s && p == s[n].parent && CanSplit(s, r, p, s[n].position, n, d, k) && Apart(s.Keys + {d})
    requires Fits(n, CutLeft(s[n], k)) && Fits(d, CutRight(s[n], k)) && Fits(p, CutParent(s[p], s[n], d, k))
    requires SplitKidsLinked(n, d, s[n].kids, k, s[p].kids, s[n].position)
    requires forall x :: x in s && x != n && x != p ==> Holds(x, s[x])
    requires forall x :: x in s && x !in s[n].kids ==> x.parent == s[x].parent
    requires forall x :: x in s && x !in s[n].kids && x !in s[p].kids ==> x.position == s[x].position
    ensures Matches(SplitStore(s, r, p, s[n].position, n, d, k))
  {
    hide SplitStore, Linked, CanSplit, Holds, SplitKidsLinked, Fits, CutLeft, CutRight, CutParent, Apart;
    var s' := SplitStore(s, r, p, s[n].position, n, d, k);
    SplitFits(s, r, p, n, d, k);
    forall x | x in s && x != n && x != p
      ensures x in s' && Fits(x, s'[x])
    {
      SplitRest(s, r, p, n, d, k, x);
    }
    MatchesAll(s');
  }

  lemma KidsAdopted(s: Store, r: Node, n: Node)
    requires Matches(s) && r in s && n in s && DownOk(s, r, n)
    ensures Adopted(n, s[n].kids) && forall x :: x in s[n].kids ==> x in s
  {
    forall j | 0 <= j < |s[n].kids|
      ensures s[n].kids[j] in s && s[n].kids[j].parent == n && s[n].kids[j].position == j
    {
      assert KidOk(s, r, n, s[n].kids[j], j);
      MatchesAt(s, s[n].kids[j]);
    }
  }

  method SplitNode(n: Node, dest: Node, insertPosition: nat, ghost s: Store, ghost r: Node, ghost p: Node, ghost k: nat)
    requires Matches(s) && n in s && p == s[n].parent && CanSplit(s, r, p, s[n].position, n, dest, k)
    requires k == SplitPoint(|s[n].vals|, n.maxCount, insertPosition) && |s[p].vals| < p.maxCount
    requires Apart(s.Keys + {dest}) && Built(dest) && dest.count == 0 && dest.maxCount == n.maxCount
    modifies (s.Keys + {dest})`parent, (s.Keys + {dest})`position, (s.Keys + {dest})`count, Arrs(s.Keys + {dest})
    ensures Matches(SplitStore(s, r, p, s[n].position, n, dest, k))
  {
    PrepareSplit(s, r, n, dest, p, k);
    KidsAdopted(s, r, n);
    KidsAdopted(s, r, p);
    forall x | x in s
      ensures x.parent == s[x].parent && x.position == s[x].position && Holds(x, s[x])
    {
      MatchesAt(s, x);
    }
    assert p in s && s[n].position <= |s[p].vals| && dest !in s;
    hide Matches, Fits, Holds, SplitRecs, DownOk, UpOk, NodeOk, Apart, Built, CutLeft, CutRight, CutParent, SplitStore;
    hide Linked, CanSplit, SplitKidsLinked;
    SplitTrio(n, dest, insertPosition, p, s[n], s[p], k, s, s.Keys + {dest});
    SplitMatches(s, r, p, n, dest, k);
  }

  // --- rebalancing ---

  ghost predicate DealRecs(l: Node, x: Node, p: Node, c: Rec, xc: Rec, pc: Rec, k: int) {
    && l != x && l != p && x != p && l.leaf == x.leaf && !p.leaf && c.position < |pc.vals| && |pc.kids| == |pc.vals| + 1
    && 0 <= k <= l.maxCount && 0 <= |c.vals| + |xc.vals| - k <= x.maxCount
    && |c.kids| == (if l.leaf then 0 else |c.vals| + 1) && |xc.kids| == (if x.leaf then 0 else |xc.vals| + 1)
    && Distinct(c.kids) && Distinct(xc.kids) && DisjointKids(c.kids, xc.kids)
    && l !in c.kids && l !in xc.kids && x !in c.kids && x !in xc.kids && p !in c.kids && p !in xc.kids
  }

  /** The children of both neighbours point to the one they were dealt to. */
  ghost predicate DealtKids(l: Node, x: Node, ks: seq<Node>, xs: seq<Node>, k: nat)
    reads ks, xs
  {
    && (forall j :: 0 <= j < |ks| ==> ks[j].parent == if j <= k then l else x)
    && (forall j :: 0 <= j < |ks| ==> ks[j].position == if j <= k then j else j - (k + 1))
    && (forall j :: 0 <= j < |xs| ==> xs[j].parent == if |ks| + j <= k then l else x)
    && (forall j :: 0 <= j < |xs| ==> xs[j].position == if |ks| + j <= k then |ks| + j else |ks| + j - (k + 1))
  }

  lemma PairIsReady(l: Node, x: Node, p: Node, c: Rec, xc: Rec, pc: Rec, k: int)
    requires DealRecs(l, x, p, c, xc, pc, k) && Fits(l, c) && Fits(x, xc) && Fits(p, pc) && Apart({l, x, p})
    requires Adopted(l, c.kids)
    ensures l.PairReady(x, p, c.kids, xc.kids)
  {
  }

  lemma DealRightToLeft(leaf: bool, c: Rec, d: Entry, xc: Rec, pc: Rec, t: nat, k: nat)
    requires k == |c.vals| + t && 1 <= t <= |xc.vals| && c.position < |pc.vals| && pc.vals[c.position] == d
    requires if leaf then c.kids == xc.kids == [] else |c.kids| == |c.vals| + 1 && |xc.kids| == |xc.vals| + 1
    ensures SameHeap(DealLeft(c, d, xc, k),
      c.(vals := c.vals + [d] + xc.vals[..t - 1], kids := if leaf then [] else c.kids + xc.kids[..t]))
    ensures SameHeap(DealRight(c, d, xc, k), xc.(vals := xc.vals[t..], kids := if leaf then [] else xc.kids[t..]))
    ensures SameHeap(DealParent(pc, c.position, c, xc, k), pc.(vals := pc.vals[c.position := xc.vals[t - 1]]))
  {
  }

  lemma DealLeftToRight(leaf: bool, c: Rec, d: Entry, xc: Rec, pc: Rec, k: nat)
    requires k < |c.vals| && c.position < |pc.vals| && pc.vals[c.position] == d
    requires if leaf then c.kids == xc.kids == [] else |c.kids| == |c.vals| + 1 && |xc.kids| == |xc.vals| + 1
    ensures SameHeap(DealLeft(c, d, xc, k), c.(vals := c.vals[..k], kids := if leaf then [] else c.kids[..k + 1]))
    ensures SameHeap(DealRight(c, d, xc, k),
      xc.(vals := c.vals[k + 1..] + [d] + xc.vals, kids := if leaf then [] else c.kids[k + 1..] + xc.kids))
    ensures SameHeap(DealParent(pc, c.position, c, xc, k), pc.(vals := pc.vals[c.position := c.vals[k]]))
  {
  }

  lemma RightToLeftDone(l: Node, x: Node, toMove: nat, p: Node, c: Rec, xc: Rec, pc: Rec, k: nat)
    requires DealRecs(l, x, p, c, xc, pc, k) && k == |c.vals| + toMove && 1 <= toMove <= |xc.vals| && Built(l)
    requires Built(x) && Built(p)
    requires l.position == c.position && p.position == pc.position && x.position == xc.position
    requires l.parent == c.parent && p.parent == pc.parent && x.parent == xc.parent
    requires l.count == |c.vals| + toMove && x.count == |xc.vals| - toMove && l.count <= l.maxCount
    requires x.count <= x.maxCount
    requires l.values[..l.count] == c.vals + [pc.vals[c.position]] + xc.vals[..toMove - 1]
    requires x.values[..x.count] == xc.vals[toMove..]
    requires p.count == |pc.vals| <= p.maxCount && p.values[..p.count] == pc.vals[c.position := xc.vals[toMove - 1]]
    requires p.children[..p.count + 1] == pc.kids
    requires !l.leaf ==>
      l.children[..l.count + 1] == c.kids + xc.kids[..toMove] && x.children[..x.count + 1] == xc.kids[toMove..]
    ensures Fits(l, DealLeft(c, pc.vals[c.position], xc, k)) && Fits(x, DealRight(c, pc.vals[c.position], xc, k))
    ensures Fits(p, DealParent(pc, c.position, c, xc, k))
  {
    DealRightToLeft(l.leaf, c, pc.vals[c.position], xc, pc, toMove, k);
    assert |pc.kids| == p.count + 1;
    hide DealLeft, DealRight, DealParent, Fits, SameHeap, Distinct, DisjointKids;
    FitsSame(l, DealLeft(c, pc.vals[c.position], xc, k),
      c.(vals := c.vals + [pc.vals[c.position]] + xc.vals[..toMove - 1], kids := if l.leaf then []
        else c.kids + xc.kids[..toMove]));
    FitsSame(x, DealRight(c, pc.vals[c.position], xc, k),
      xc.(vals := xc.vals[toMove..], kids := if l.leaf then [] else xc.kids[toMove..]));
    FitsSame(p, DealParent(pc, c.position, c, xc, k), pc.(vals := pc.vals[c.position := xc.vals[toMove - 1]]));
  }

  method RightToLeftCore(l: Node, x: Node, toMove: nat, p: Node, ghost c: Rec, ghost xc: Rec, ghost pc: Rec,
        ghost k: nat)
    requires DealRecs(l, x, p, c, xc, pc, k) && k == |c.vals| + toMove && 1 <= toMove <= |xc.vals|
    requires Fits(l, c) && Fits(x, xc) && Fits(p, pc) && Apart({l, x, p}) && Adopted(l, c.kids) && Adopted(x, xc.kids)
    modifies l.values, x.values, p.values, l`count, x`count, l.children, x.children, xc.kids`parent, xc.kids`position
    ensures Fits(l, DealLeft(c, pc.vals[c.position], xc, k)) && Fits(x, DealRight(c, pc.vals[c.position], xc, k))
    ensures Fits(p, DealParent(pc, c.position, c, xc, k))
    ensures DealtKids(l, x, c.kids, xc.kids, k)
  {
    hide *;
    PairIsReady(l, x, p, c, xc, pc, k);
    PairParts(l, x, p, c, xc, pc, k);
    l.RebalanceRightToLeft(x, toMove, p, c.vals, xc.vals, pc.vals, c.kids, xc.kids);
    IsDealtLeft(l, x, c.kids, xc.kids, toMove, k);
    RightToLeftDone(l, x, toMove, p, c, xc, pc, k);
  }

  lemma PairParts(l: Node, x: Node, p: Node, c: Rec, xc: Rec, pc: Rec, k: int)
    requires DealRecs(l, x, p, c, xc, pc, k) && Fits(l, c) && Fits(x, xc) && Fits(p, pc) && Apart({l, x, p})
    requires Adopted(l, c.kids) && Adopted(x, xc.kids)
    ensures Built(l) && l.count == |c.vals| <= l.maxCount && l.values[..l.count] == c.vals
    ensures Built(x) && x.count == |xc.vals| <= x.maxCount && x.values[..x.count] == xc.vals
    ensures Built(p) && p.count == |pc.vals| <= p.maxCount && p.values[..p.count] == pc.vals
    ensures |pc.kids| == p.count + 1 <= p.children.Length && p.children[..p.count + 1] == pc.kids
    ensures l.position == c.position && p.position == pc.position && x.position == xc.position
    ensures l.parent == c.parent && p.parent == pc.parent && x.parent == xc.parent
    ensures p.children != l.children && p.children != x.children && l != x && p != l && p != x
    ensures l !in c.kids && l !in xc.kids && x !in c.kids && x !in xc.kids && p !in c.kids && p !in xc.kids
    ensures 0 <= k <= l.maxCount && 0 <= |c.vals| + |xc.vals| - k <= x.maxCount && l.leaf == x.leaf
    ensures |c.kids| == (if l.leaf then 0 else |c.vals| + 1) && |xc.kids| == (if x.leaf then 0 else |xc.vals| + 1)
    ensures forall j :: 0 <= j < |c.kids| ==> c.kids[j].parent == l && c.kids[j].position == j
    ensures forall j :: 0 <= j < |xc.kids| ==> xc.kids[j].parent == x && xc.kids[j].position == j
    ensures forall j :: 0 <= j < |c.kids| ==> c.kids[j] !in xc.kids
  {
    FitsParts(l, c);
    FitsParts(x, xc);
    FitsParts(p, pc);
  }

  lemma IsDealtLeft(l: Node, x: Node, ks: seq<Node>, xs: seq<Node>, toMove: nat, k: nat)
    requires |ks| <= k + 1 && (xs != [] ==> |ks| + toMove == k + 1)
    requires forall j :: 0 <= j < |ks| ==> ks[j].parent == l && ks[j].position == j
    requires forall j :: 0 <= j < |xs| ==> xs[j].parent == if j < toMove then l else x
    requires forall j :: 0 <= j < |xs| ==> xs[j].position == if j < toMove then |ks| + j else j - toMove
    ensures DealtKids(l, x, ks, xs, k)
  {
  }

  lemma IsDealtRight(l: Node, x: Node, ks: seq<Node>, xs: seq<Node>, n: nat, toMove: nat, k: nat)
    requires n == k && (xs != [] ==> |ks| == k + toMove + 1)
    requires forall j :: 0 <= j < |xs| ==> xs[j].parent == x && xs[j].position == j + toMove
    requires forall j :: 0 <= j < |ks| ==> ks[j].parent == if j <= n then l else x
    requires forall j :: 0 <= j < |ks| ==> ks[j].position == if j <= n then j else j - (n + 1)
    ensures DealtKids(l, x, ks, xs, k)
  {
  }

  lemma LeftToRightDone(l: Node, x: Node, toMove: nat, p: Node, c: Rec, xc: Rec, pc: Rec, k: nat)
    requires DealRecs(l, x, p, c, xc, pc, k) && k + toMove == |c.vals| && 1 <= toMove && Built(l) && Built(x)
    requires Built(p)
    requires l.position == c.position && p.position == pc.position && x.position == xc.position
    requires l.parent == c.parent && p.parent == pc.parent && x.parent == xc.parent
    requires l.count == |c.vals| - toMove && x.count == |xc.vals| + toMove && l.count <= l.maxCount
    requires x.count <= x.maxCount
    requires l.values[..l.count] == c.vals[..l.count]
    requires x.values[..x.count] == c.vals[l.count + 1..] + [pc.vals[c.position]] + xc.vals
    requires p.count == |pc.vals| <= p.maxCount && p.values[..p.count] == pc.vals[c.position := c.vals[l.count]]
    requires p.children[..p.count + 1] == pc.kids
    requires !l.leaf ==>
      l.children[..l.count + 1] == c.kids[..l.count + 1] && x.children[..x.count + 1] == c.kids[l.count + 1..] + xc.kids
    ensures Fits(l, DealLeft(c, pc.vals[c.position], xc, k)) && Fits(x, DealRight(c, pc.vals[c.position], xc, k))
    ensures Fits(p, DealParent(pc, c.position, c, xc, k))
  {
    hide *;
    DealRecsCounts(l, x, p, c, xc, pc, k);
    var d, n := pc.vals[c.position], l.count;
    DealLeftToRight(l.leaf, c, d, xc, pc, n);
    LowerFits(l, DealLeft(c, d, xc, n), c);
    UpperFits(x, DealRight(c, d, xc, n), c, d, xc, n);
    FitsSame(p, DealParent(pc, c.position, c, xc, n), pc.(vals := pc.vals[c.position := c.vals[n]]));
    assert n == k;
  }

  lemma LowerFits(l: Node, e: Rec, c: Rec)
    requires Built(l) && l.position == c.position && l.parent == c.parent && l.count <= l.maxCount && l.count < |c.vals|
    requires l.values[..l.count] == c.vals[..l.count] && (!l.leaf ==> |c.kids| == |c.vals| + 1)
    requires !l.leaf ==> l.children[..l.count + 1] == c.kids[..l.count + 1]
    requires SameHeap(e, c.(vals := c.vals[..l.count], kids := if l.leaf then [] else c.kids[..l.count + 1]))
    ensures Fits(l, e)
  {
    FitsSame(l, e, c.(vals := c.vals[..l.count], kids := if l.leaf then [] else c.kids[..l.count + 1]));
  }

  lemma UpperFits(x: Node, e: Rec, c: Rec, d: Entry, xc: Rec, k: nat)
    requires Built(x) && x.position == xc.position && x.parent == xc.parent && x.count <= x.maxCount && k < |c.vals|
    requires x.count == |c.vals| - k + |xc.vals| && x.values[..x.count] == c.vals[k + 1..] + [d] + xc.vals
    requires !x.leaf ==> |c.kids| == |c.vals| + 1 && x.children[..x.count + 1] == c.kids[k + 1..] + xc.kids
    requires SameHeap(e,
      xc.(vals := c.vals[k + 1..] + [d] + xc.vals, kids := if x.leaf then [] else c.kids[k + 1..] + xc.kids))
    ensures Fits(x, e)
  {
    FitsSame(x, e,
      xc.(vals := c.vals[k + 1..] + [d] + xc.vals, kids := if x.leaf then [] else c.kids[k + 1..] + xc.kids));
  }

  lemma DealRecsCounts(l: Node, x: Node, p: Node, c: Rec, xc: Rec, pc: Rec, k: int)
    requires DealRecs(l, x, p, c, xc, pc, k)
    ensures l.leaf == x.leaf && !p.leaf && c.position < |pc.vals| && |pc.kids| == |pc.vals| + 1
    ensures |c.kids| == (if l.leaf then 0 else |c.vals| + 1) && |xc.kids| == (if x.leaf then 0 else |xc.vals| + 1)
  {
  }

  method LeftToRightCore(l: Node, x: Node, toMove: nat, p: Node, ghost c: Rec, ghost xc: Rec, ghost pc: Rec,
        ghost k: nat)
    requires DealRecs(l, x, p, c, xc, pc, k) && k + toMove == |c.vals| && 1 <= toMove
    requires Fits(l, c) && Fits(x, xc) && Fits(p, pc) && Apart({l, x, p}) && Adopted(l, c.kids) && Adopted(x, xc.kids)
    modifies l.values, x.values, p.values, l`count, x`count, l.children, x.children, xc.kids`parent, xc.kids`position
    modifies c.kids`parent, c.kids`position
    ensures Fits(l, DealLeft(c, pc.vals[c.position], xc, k)) && Fits(x, DealRight(c, pc.vals[c.position], xc, k))
    ensures Fits(p, DealParent(pc, c.position, c, xc, k))
    ensures DealtKids(l, x, c.kids, xc.kids, k)
  {
    hide *;
    PairIsReady(l, x, p, c, xc, pc, k);
    PairParts(l, x, p, c, xc, pc, k);
    l.RebalanceLeftToRight(x, toMove, p, c.vals, xc.vals, pc.vals, c.kids, xc.kids);
    assert DealtKids(l, x, c.kids, xc.kids, k) by { IsDealtRight(l, x, c.kids, xc.kids, l.count, toMove, k); }
    LeftToRightDone(l, x, toMove, p, c, xc, pc, k);
  }

  method RightToLeftTrio(l: Node, x: Node, toMove: nat, p: Node, ghost c: Rec, ghost xc: Rec, ghost pc: Rec,
        ghost k: nat, ghost s: Store, ghost all: set<Node>)
    requires DealRecs(l, x, p, c, xc, pc, k) && k == |c.vals| + toMove && 1 <= toMove <= |xc.vals|
    requires Fits(l, c) && Fits(x, xc) && Fits(p, pc) && Apart(all) && l in all && x in all && p in all
    requires Adopted(l, c.kids) && Adopted(x, xc.kids)
    requires (forall y :: y in c.kids ==> y in all) && (forall y :: y in xc.kids ==> y in all)
    requires forall y :: y in s && y in all ==> Holds(y, s[y])
    modifies all`parent, all`position, all`count, Arrs(all)
    ensures Fits(l, DealLeft(c, pc.vals[c.position], xc, k)) && Fits(x, DealRight(c, pc.vals[c.position], xc, k))
    ensures Fits(p, DealParent(pc, c.position, c, xc, k))
    ensures DealtKids(l, x, c.kids, xc.kids, k)
    ensures forall y :: y in s && y in all && y != l && y != p && y != x ==> Holds(y, s[y])
    ensures forall y :: y in all && y !in c.kids && y !in xc.kids ==>
      y.parent == old(y.parent) && y.position == old(y.position)
  {
    hide Fits, Holds, DealLeft, DealRight, DealParent, DealtKids, Adopted;
    RightToLeftCore(l, x, toMove, p, c, xc, pc, k);
  }

  method LeftToRightTrio(l: Node, x: Node, toMove: nat, p: Node, ghost c: Rec, ghost xc: Rec, ghost pc: Rec,
        ghost k: nat, ghost s: Store, ghost all: set<Node>)
    requires DealRecs(l, x, p, c, xc, pc, k) && k + toMove == |c.vals| && 1 <= toMove
    requires Fits(l, c) && Fits(x, xc) && Fits(p, pc) && Apart(all) && l in all && x in all && p in all
    requires Adopted(l, c.kids) && Adopted(x, xc.kids)
    requires (forall y :: y in c.kids ==> y in all) && (forall y :: y in xc.kids ==> y in all)
    requires forall y :: y in s && y in all ==> Holds(y, s[y])
    modifies all`parent, all`position, all`count, Arrs(all)
    ensures Fits(l, DealLeft(c, pc.vals[c.position], xc, k)) && Fits(x, DealRight(c, pc.vals[c.position], xc, k))
    ensures Fits(p, DealParent(pc, c.position, c, xc, k))
    ensures DealtKids(l, x, c.kids, xc.kids, k)
    ensures forall y :: y in s && y in all && y != l && y != p && y != x ==> Holds(y, s[y])
    ensures forall y :: y in all && y !in c.kids && y !in xc.kids ==>
      y.parent == old(y.parent) && y.position == old(y.position)
  {
    hide Fits, Holds, DealLeft, DealRight, DealParent, DealtKids, Adopted;
    LeftToRightCore(l, x, toMove, p, c, xc, pc, k);
  }

  /** A node that rebalancing only re-links, or leaves alone, fits its new record. */
  lemma DealRest(s: Store, r: Node, p: Node, l: Node, x: Node, k: nat, y: Node)
    requires l in s && CanRebalance(s, r, p, s[l].position, l, x, k) && y in s && y != p && y != l && y != x
    requires DealtKids(l, x, s[l].kids, s[x].kids, k) && Holds(y, s[y])
    requires y !in s[l].kids && y !in s[x].kids ==> y.parent == s[y].parent && y.position == s[y].position
    ensures y in Redistribute(s, r, p, s[l].position, l, x, k)
    ensures Fits(y, Redistribute(s, r, p, s[l].position, l, x, k)[y])
  {
    hide Redistribute, CanRebalance, CanMerge, MergeStore, MergeLeft, MergeParent, Linked, NodeOk, Built, Distinct;
    hide DownOk, UpOk;
    DealLinked(s, r, p, s[l].position, l, x, k);
    PairShape(s, r, p, s[l].position, l, x);
    MergeSelf(s, r, p, s[l].position, l, x);
    LinkedParts(s, r, y);
    WhoseKid(s, r, l, y);
    WhoseKid(s, r, x, y);
    RedistributeOther(s, r, p, s[l].position, l, x, k, y);
  }

  lemma LinkedParts(s: Store, r: Node, n: Node)
    requires Linked(s, r, null) && n in s
    ensures DownOk(s, r, n) && UpOk(s, r, n)
  {
    LinkedNode(s, r, null, n);
  }

  lemma PairShape(s: Store, r: Node, p: Node, q: nat, l: Node, x: Node)
    requires CanMerge(s, r, p, q, l, x)
    ensures r in s && l in s && x in s && p in s && DownOk(s, r, l) && DownOk(s, r, x) && DownOk(s, r, p) && !p.leaf
    ensures |s[l].kids| == (if l.leaf then 0 else |s[l].vals| + 1)
    ensures |s[x].kids| == (if x.leaf then 0 else |s[x].vals| + 1)
  {
  }

  lemma DealRecsHold(s: Store, r: Node, p: Node, l: Node, x: Node, k: nat)
    requires l in s && CanRebalance(s, r, p, s[l].position, l, x, k)
    requires k <= l.maxCount && x in s && |s[l].vals| + |s[x].vals| - k <= x.maxCount
    ensures p in s && DealRecs(l, x, p, s[l], s[x], s[p], k)
  {
    MergeSelf(s, r, p, s[l].position, l, x);
    PairShape(s, r, p, s[l].position, l, x);
    KidsDistinct(s, r, l);
    KidsDistinct(s, r, x);
    KidsLower(s, r, l);
    KidsLower(s, r, x);
    hide DownOk, CanMerge, Linked, MergeStore;
    assert DisjointKids(s[l].kids, s[x].kids);
  }

  lemma PrepareDeal(s: Store, r: Node, p: Node, l: Node, x: Node, k: nat)
    requires Matches(s) && l in s && x in s && CanRebalance(s, r, p, s[l].position, l, x, k)
    requires k <= l.maxCount && |s[l].vals| + |s[x].vals| - k <= x.maxCount
    ensures p in s && DealRecs(l, x, p, s[l], s[x], s[p], k)
    ensures Fits(l, s[l]) && Fits(x, s[x]) && Fits(p, s[p]) && Apart(s.Keys) && Adopted(l, s[l].kids)
    ensures Adopted(x, s[x].kids)
    ensures (forall y :: y in s[l].kids ==> y in s) && (forall y :: y in s[x].kids ==> y in s)
  {
    DealRecsHold(s, r, p, l, x, k);
    PairShape(s, r, p, s[l].position, l, x);
    hide CanRebalance, DownOk, Fits, DealRecs, Adopted, Apart;
    KidsAdopted(s, r, l);
    KidsAdopted(s, r, x);
    MatchesAt(s, l);
    MatchesAt(s, x);
    MatchesAt(s, p);
    KidsLower(s, r, l);
    KidsLower(s, r, x);
  }

  lemma KidsLower(s: Store, r: Node, n: Node)
    requires r in s && n in s && DownOk(s, r, n)
    ensures forall i :: 0 <= i < |s[n].kids| ==>
      s[n].kids[i] in s && s[s[n].kids[i]].height < s[n].height && s[s[n].kids[i]].parent == n
  {
    forall i | 0 <= i < |s[n].kids|
      ensures s[n].kids[i] in s && s[s[n].kids[i]].height < s[n].height && s[s[n].kids[i]].parent == n
    {
      assert KidOk(s, r, n, s[n].kids[i], i);
    }
  }

  lemma DealFits(s: Store, r: Node, p: Node, l: Node, x: Node, k: nat)
    requires l in s && x in s && p in s && CanRebalance(s, r, p, s[l].position, l, x, k) && s[l].position < |s[p].vals|
    requires Fits(l, DealLeft(s[l], s[p].vals[s[l].position], s[x], k))
    requires Fits(x, DealRight(s[l], s[p].vals[s[l].position], s[x], k))
    requires Fits(p, DealParent(s[p], s[l].position, s[l], s[x], k))
    ensures
      var s' := Redistribute(s, r, p, s[l].position, l, x, k);
      && s'.Keys == s.Keys && Fits(l, s'[l]) && Fits(x, s'[x]) && Fits(p, s'[p])
  {
    hide Redistribute, CanRebalance, Fits, DealLeft, DealRight, DealParent, SameHeap;
    var s' := Redistribute(s, r, p, s[l].position, l, x, k);
    RedistributeRecords(s, r, p, s[l].position, l, x, k);
    SameFits(l, DealLeft(s[l], s[p].vals[s[l].position], s[x], k), s'[l]);
    SameFits(x, DealRight(s[l], s[p].vals[s[l].position], s[x], k), s'[x]);
    SameFits(p, DealParent(s[p], s[l].position, s[l], s[x], k), s'[p]);
  }

  lemma DealMatches(s: Store, r: Node, p: Node, l: Node, x: Node, k: nat)
    requires l in s && x in s && p in s && CanRebalance(s, r, p, s[l].position, l, x, k) && s[l].position < |s[p].vals|
    requires Apart(s.Keys)
    requires Fits(l, DealLeft(s[l], s[p].vals[s[l].position], s[x], k))
    requires Fits(x, DealRight(s[l], s[p].vals[s[l].position], s[x], k))
    requires Fits(p, DealParent(s[p], s[l].position, s[l], s[x], k))
    requires DealtKids(l, x, s[l].kids, s[x].kids, k)
    requires forall y :: y in s && y != l && y != p && y != x ==> Holds(y, s[y])
    requires forall y :: y in s && y !in s[l].kids && y !in s[x].kids ==>
      y.parent == s[y].parent && y.position == s[y].position
    ensures Matches(Redistribute(s, r, p, s[l].position, l, x, k))
  {
    hide Redistribute, CanRebalance, Holds, DealtKids, Fits, DealLeft, DealRight, DealParent, Apart;
    var s' := Redistribute(s, r, p, s[l].position, l, x, k);
    DealFits(s, r, p, l, x, k);
    forall y | y in s && y != l && y != x && y != p
      ensures y in s' && Fits(y, s'[y])
    {
      DealRest(s, r, p, l, x, k, y);
    }
    MatchesAll(s');
  }

  /** Rebalances l with its right sibling x below p: toMove values come over to l. */
  method RebalanceNodesRightToLeft(l: Node, x: Node, toMove: nat, ghost s: Store, ghost r: Node, p: Node, ghost k: nat)
    requires Matches(s) && l in s && x in s && p in s && CanRebalance(s, r, p, s[l].position, l, x, k)
    requires k == |s[l].vals| + toMove && 1 <= toMove <= |s[x].vals|
    requires k <= l.maxCount && |s[l].vals| + |s[x].vals| - k <= x.maxCount
    modifies s.Keys`parent, s.Keys`position, s.Keys`count, Arrs(s.Keys)
    ensures Matches(Redistribute(s, r, p, s[l].position, l, x, k))
  {
    PrepareDeal(s, r, p, l, x, k);
    hide Matches, Fits, Holds, Apart, DealRecs, Redistribute, CanRebalance, DealtKids, DealLeft, DealRight, DealParent;
    hide Adopted;
    forall y | y in s
      ensures y.parent == s[y].parent && y.position == s[y].position && Holds(y, s[y])
    {
      MatchesAt(s, y);
    }
    RightToLeftTrio(l, x, toMove, p, s[l], s[x], s[p], k, s, s.Keys);
    DealMatches(s, r, p, l, x, k);
  }

  /** Rebalances l with its right sibling x below p: toMove values leave l. */
  method RebalanceNodesLeftToRight(l: Node, x: Node, toMove: nat, ghost s: Store, ghost r: Node, p: Node, ghost k: nat)
    requires Matches(s) && l in s && x in s && p in s && CanRebalance(s, r, p, s[l].position, l, x, k)
    requires k + toMove == |s[l].vals| && 1 <= toMove
    requires k <= l.maxCount && |s[l].vals| + |s[x].vals| - k <= x.maxCount
    modifies s.Keys`parent, s.Keys`position, s.Keys`count, Arrs(s.Keys)
    ensures Matches(Redistribute(s, r, p, s[l].position, l, x, k))
  {
    PrepareDeal(s, r, p, l, x, k);
    hide Matches, Fits, Holds, Apart, DealRecs, Redistribute, CanRebalance, DealtKids, DealLeft, DealRight, DealParent;
    hide Adopted;
    forall y | y in s
      ensures y.parent == s[y].parent && y.position == s[y].position && Holds(y, s[y])
    {
      MatchesAt(s, y);
    }
    LeftToRightTrio(l, x, toMove, p, s[l], s[x], s[p], k, s, s.Keys);
    DealMatches(s, r, p, l, x, k);
  }

  // --- merging ---

  ghost predicate JoinRecs(l: Node, x: Node, p: Node, c: Rec, xc: Rec, pc: Rec) {
    && DealRecs(l, x, p, c, xc, pc, |c.vals|) && |c.vals| + 1 + |xc.vals| <= l.maxCount
    && pc.kids[c.position] == l && Distinct(pc.kids) && DisjointKids(xc.kids, pc.kids) && p !in pc.kids
  }

  ghost function JoinLeft(c: Rec, d: Entry, xc: Rec): Rec {
    c.(vals := c.vals + [d] + xc.vals, kids := c.kids + xc.kids)
  }

  ghost function JoinParent(pc: Rec, q: nat): Rec {
    if q < |pc.vals| && q + 1 < |pc.kids| then pc.(vals := Remove(pc.vals, q), kids := Remove(pc.kids, q + 1)) else pc
  }

  /** The children of the merged-in node and of the parent, re-linked. */
  ghost predicate JoinedKids(l: Node, xs: seq<Node>, m: nat, pk: seq<Node>, q: nat)
    reads xs, pk
  {
    && (forall j :: 0 <= j < |xs| ==> xs[j].parent == l && xs[j].position == m + j)
    && (forall j :: 0 <= j < |pk| ==> pk[j].position == if j <= q + 1 then j else j - 1)
  }

  method MergePlain(l: Node, x: Node, p: Node, ghost c: Rec, ghost xc: Rec, ghost pc: Rec, ghost nl: Rec, ghost np: Rec)
    requires JoinRecs(l, x, p, c, xc, pc) && Fits(l, c) && Fits(x, xc) && Fits(p, pc) && Apart({l, x, p})
    requires Adopted(l, c.kids) && Adopted(x, xc.kids) && InOrder(pc.kids)
    requires SameHeap(nl, c.(vals := c.vals + [pc.vals[c.position]] + xc.vals, kids := c.kids + xc.kids))
    requires SameHeap(np, pc.(vals := Remove(pc.vals, c.position), kids := Remove(pc.kids, c.position + 1)))
    modifies l.values, x.values, p.values, l`count, x`count, p`count, l.children, x.children, p.children
    modifies xc.kids`parent, xc.kids`position, pc.kids`position
    ensures Fits(l, nl) && Fits(p, np)
    ensures JoinedKids(l, xc.kids, |c.kids|, pc.kids, c.position)
  {
    PairIsReady(l, x, p, c, xc, pc, |c.vals|);
    assert p.children != l.children && p.children != x.children;
    hide Node.PairReady, Built, Apart, Fits;
    l.Merge(x, p, c.vals, xc.vals, pc.vals, pc.kids, c.kids, xc.kids);
    assert pc.kids[c.position].position == c.position;
    assert l.position == c.position && p.position == pc.position;
    hide *;
    FitsKids(l, nl, c.vals + [pc.vals[c.position]] + xc.vals, if l.leaf then [] else c.kids + xc.kids);
    FitsKids(p, np, Remove(pc.vals, c.position), Remove(pc.kids, c.position + 1));
  }

  method MergeCore(l: Node, x: Node, p: Node, ghost c: Rec, ghost xc: Rec, ghost pc: Rec)
    requires JoinRecs(l, x, p, c, xc, pc) && Fits(l, c) && Fits(x, xc) && Fits(p, pc) && Apart({l, x, p})
    requires Adopted(l, c.kids) && Adopted(x, xc.kids) && InOrder(pc.kids)
    modifies l.values, x.values, p.values, l`count, x`count, p`count, l.children, x.children, p.children
    modifies xc.kids`parent, xc.kids`position, pc.kids`position
    ensures Fits(l, JoinLeft(c, pc.vals[c.position], xc)) && Fits(p, JoinParent(pc, c.position))
    ensures JoinedKids(l, xc.kids, |c.kids|, pc.kids, c.position)
  {
    ghost var nl, np := JoinLeft(c, pc.vals[c.position], xc), JoinParent(pc, c.position);
    assert SameHeap(nl, c.(vals := c.vals + [pc.vals[c.position]] + xc.vals, kids := c.kids + xc.kids));
    assert SameHeap(np, pc.(vals := Remove(pc.vals, c.position), kids := Remove(pc.kids, c.position + 1)));
    hide JoinLeft, JoinParent, Fits, Adopted, InOrder, Apart, JoinedKids, SameHeap;
    MergePlain(l, x, p, c, xc, pc, nl, np);
  }

  method MergeTrio(l: Node, x: Node, p: Node, ghost c: Rec, ghost xc: Rec, ghost pc: Rec, ghost s: Store,
        ghost all: set<Node>)
    requires JoinRecs(l, x, p, c, xc, pc) && Fits(l, c) && Fits(x, xc) && Fits(p, pc) && Apart(all) && l in all
    requires x in all && p in all
    requires Adopted(l, c.kids) && Adopted(x, xc.kids) && InOrder(pc.kids)
    requires (forall y :: y in c.kids ==> y in all) && (forall y :: y in xc.kids ==> y in all)
    requires (forall y :: y in pc.kids ==> y in all)
    requires forall y :: y in s && y in all ==> Holds(y, s[y])
    modifies all`parent, all`position, all`count, Arrs(all)
    ensures Fits(l, JoinLeft(c, pc.vals[c.position], xc)) && Fits(p, JoinParent(pc, c.position))
    ensures JoinedKids(l, xc.kids, |c.kids|, pc.kids, c.position)
    ensures forall y :: y in s && y in all && y != l && y != p && y != x ==> Holds(y, s[y])
    ensures forall y :: y in all && y !in xc.kids ==> y.parent == old(y.parent)
    ensures forall y :: y in all && y !in xc.kids && y !in pc.kids ==> y.position == old(y.position)
  {
    hide Fits, Holds, JoinLeft, JoinParent, JoinedKids, Adopted, InOrder;
    MergeCore(l, x, p, c, xc, pc);
  }

  lemma MergeHeap(s: Store, r: Node, p: Node, q: nat, l: Node, x: Node)
    requires CanMerge(s, r, p, q, l, x)
    ensures
      var s' := MergeStore(s, r, p, q, l, x);
      && s'.Keys == s.Keys - {x} && l in s' && p in s' && l in s && x in s && q < |s[p].vals|
      && SameHeap(s'[l], JoinLeft(s[l], s[p].vals[q], s[x])) && SameHeap(s'[p], JoinParent(s[p], q))
  {
    hide MergeStore, CanMerge;
    MergeSelf(s, r, p, q, l, x);
  }

  /** A node that merging only re-links, or leaves alone, fits its new record. */
  lemma JoinRest(s: Store, r: Node, p: Node, l: Node, x: Node, y: Node)
    requires l in s && CanMerge(s, r, p, s[l].position, l, x) && y in s && y != p && y != l && y != x
    requires JoinedKids(l, s[x].kids, |s[l].kids|, s[p].kids, s[l].position) && Holds(y, s[y])
    requires y !in s[x].kids ==> y.parent == s[y].parent
    requires y !in s[x].kids && y !in s[p].kids ==> y.position == s[y].position
    ensures y in MergeStore(s, r, p, s[l].position, l, x) && Fits(y, MergeStore(s, r, p, s[l].position, l, x)[y])
  {
    LinkedNode(s, r, null, y);
    WhoseKid(s, r, x, y);
    WhoseKid(s, r, p, y);
    MergeOther(s, r, p, s[l].position, l, x, y);
    MergeSelf(s, r, p, s[l].position, l, x);
    if y != r && s[y].parent == p { SiblingPlace(s, r, p, s[l].position, l, x, y); }
    hide MergeStore, Linked, ContOk;
  }

  lemma JoinMatches(s: Store, r: Node, p: Node, l: Node, x: Node)
    requires l in s && x in s && p in s && CanMerge(s, r, p, s[l].position, l, x) && s[l].position < |s[p].vals|
    requires Apart(s.Keys)
    requires Fits(l, JoinLeft(s[l], s[p].vals[s[l].position], s[x])) && Fits(p, JoinParent(s[p], s[l].position))
    requires JoinedKids(l, s[x].kids, |s[l].kids|, s[p].kids, s[l].position)
    requires forall y :: y in s && y != l && y != p && y != x ==> Holds(y, s[y])
    requires forall y :: y in s && y !in s[x].kids ==> y.parent == s[y].parent
    requires forall y :: y in s && y !in s[x].kids && y !in s[p].kids ==> y.position == s[y].position
    ensures Matches(MergeStore(s, r, p, s[l].position, l, x))
  {
    hide MergeStore, CanMerge, Holds, JoinedKids, Fits, JoinLeft, JoinParent;
    var s' := MergeStore(s, r, p, s[l].position, l, x);
    MergeHeap(s, r, p, s[l].position, l, x);
    hide SameHeap;
    SameFits(l, JoinLeft(s[l], s[p].vals[s[l].position], s[x]), s'[l]);
    SameFits(p, JoinParent(s[p], s[l].position), s'[p]);
    forall y | y in s && y != l && y != x && y != p
      ensures y in s' && Fits(y, s'[y])
    {
      JoinRest(s, r, p, l, x, y);
    }
    assert Apart(s'.Keys);
    MatchesAll(s');
  }

  lemma PrepareJoin(s: Store, r: Node, p: Node, l: Node, x: Node)
    requires Matches(s) && l in s && CanMerge(s, r, p, s[l].position, l, x)
    requires |s[l].vals| + 1 + |s[x].vals| <= l.maxCount
    requires |s[x].vals| <= x.maxCount
    ensures x in s && p in s && JoinRecs(l, x, p, s[l], s[x], s[p])
    ensures Fits(l, s[l]) && Fits(x, s[x]) && Fits(p, s[p]) && Apart(s.Keys) && Adopted(l, s[l].kids)
    ensures Adopted(x, s[x].kids) && InOrder(s[p].kids)
    ensures (forall y :: y in s[l].kids ==> y in s) && (forall y :: y in s[x].kids ==> y in s)
    ensures (forall y :: y in s[p].kids ==> y in s)
  {
    hide *;
    PairShape(s, r, p, s[l].position, l, x);
    JoinCan(s, r, p, s[l].position, l, x);
    MergeSelf(s, r, p, s[l].position, l, x);
    PrepareDeal(s, r, p, l, x, |s[l].vals|);
    KidsAdopted(s, r, p);
    KidsDistinct(s, r, p);
    KidsLower(s, r, p);
    KidsApart(s, r, p, x);
    IsJoinRecs(l, x, p, s[l], s[x], s[p]);
    AdoptedInOrder(p, s[p].kids);
  }

  lemma IsJoinRecs(l: Node, x: Node, p: Node, c: Rec, xc: Rec, pc: Rec)
    requires DealRecs(l, x, p, c, xc, pc, |c.vals|) && |c.vals| + 1 + |xc.vals| <= l.maxCount
    requires c.position < |pc.kids| && pc.kids[c.position] == l
    requires Distinct(pc.kids) && DisjointKids(xc.kids, pc.kids) && p !in pc.kids
    ensures JoinRecs(l, x, p, c, xc, pc)
  {
    hide DealRecs, Distinct, DisjointKids;
  }

  lemma AdoptedInOrder(n: Node, ks: seq<Node>)
    requires Adopted(n, ks)
    ensures InOrder(ks)
  {
  }

  lemma JoinCan(s: Store, r: Node, p: Node, q: nat, l: Node, x: Node)
    requires CanMerge(s, r, p, q, l, x)
    ensures l in s && x in s && CanRebalance(s, r, p, q, l, x, |s[l].vals|) && s[p].kids[q] == l
  {
    hide Linked, NodeOk;
  }

  /** Merges l with its right sibling x below p. */
  method MergeNodes(l: Node, x: Node, ghost s: Store, ghost r: Node, p: Node)
    requires Matches(s) && l in s && x in s && p in s && CanMerge(s, r, p, s[l].position, l, x)
    requires |s[l].vals| + 1 + |s[x].vals| <= l.maxCount && |s[x].vals| <= x.maxCount
    modifies s.Keys`parent, s.Keys`position, s.Keys`count, Arrs(s.Keys)
    ensures Matches(MergeStore(s, r, p, s[l].position, l, x))
  {
    PrepareJoin(s, r, p, l, x);
    assert s[l].position < |s[p].vals|;
    hide Matches, Fits, Holds, Apart, DealRecs, JoinRecs, MergeStore, CanMerge, JoinedKids, JoinLeft, JoinParent;
    hide Adopted, InOrder;
    forall y | y in s
      ensures y.parent == s[y].parent && y.position == s[y].position && Holds(y, s[y])
    {
      MatchesAt(s, y);
    }
    MergeTrio(l, x, p, s[l], s[x], s[p], s, s.Keys);
    JoinMatches(s, r, p, l, x);
  }
}
