/** Rebalancing two neighbours: as if they were merged and split again at another place. */
module Rebalancing {
  import opened Entries
  import opened Weaving
  import opened Trees
  import opened Splitting
  import opened Merging
  import opened Ranks

  ghost predicate CanRebalance(s: Store, r: Node, p: Node, q: nat, l: Node, x: Node, k: nat) {
    CanMerge(s, r, p, q, l, x) && k < |s[l].vals| + 1 + |s[x].vals|
  }

  lemma DealLinked(s: Store, r: Node, p: Node, q: nat, l: Node, x: Node, k: nat)
    requires CanRebalance(s, r, p, q, l, x, k)
    ensures CanMerge(s, r, p, q, l, x) && Linked(s, r, null) && r in s && p in s && l in s && x in s
  {
    hide Linked, NodeOk;
  }

  lemma RebalanceReady(s: Store, r: Node, p: Node, q: nat, l: Node, x: Node, k: nat)
    requires CanRebalance(s, r, p, q, l, x, k)
    ensures CanSplit(MergeStore(s, r, p, q, l, x), r, p, q, l, x, k)
  {
    hide MergeLinks, MergeStore;
    MergeCanSplit(s, r, p, q, l, x);
    MergeRecords(s, r, p, q, l, x);
    assert |MergeStore(s, r, p, q, l, x)[l].vals| == |s[l].vals| + 1 + |s[x].vals| by { MergeSelf(s, r, p, q, l, x); }
  }

  /** The store after the values and children of l and x have been dealt out anew, k values to l. */
  ghost function Redistribute(s: Store, r: Node, p: Node, q: nat, l: Node, x: Node, k: nat): Store
    requires CanRebalance(s, r, p, q, l, x, k)
  {
    RebalanceReady(s, r, p, q, l, x, k);
    SplitStore(MergeStore(s, r, p, q, l, x), r, p, q, l, x, k)
  }

  lemma RedistributeLinked(s: Store, r: Node, p: Node, q: nat, l: Node, x: Node, k: nat)
    requires CanRebalance(s, r, p, q, l, x, k)
    ensures Linked(Redistribute(s, r, p, q, l, x, k), r, null)
    ensures Redistribute(s, r, p, q, l, x, k)[r].cont == s[r].cont
  {
    hide MergeStore, SplitStore, CanMerge;
    RebalanceReady(s, r, p, q, l, x, k);
    MergeLinked(s, r, p, q, l, x);
    SplitLinked(MergeStore(s, r, p, q, l, x), r, p, q, l, x, k);
  }

  lemma RedistributeOff(s: Store, r: Node, p: Node, q: nat, l: Node, x: Node, k: nat, y: Node)
    requires CanRebalance(s, r, p, q, l, x, k) && y in s && y != x
    ensures Off(Redistribute(s, r, p, q, l, x, k), r, y) == Off(s, r, y)
  {
    hide SplitStore, CanMerge, MergeStore;
    RebalanceReady(s, r, p, q, l, x, k);
    MergeOff(s, r, p, q, l, x, y);
    SplitOff(MergeStore(s, r, p, q, l, x), r, p, q, l, x, k, y);
  }

  lemma RedistributeOffRight(s: Store, r: Node, p: Node, q: nat, l: Node, x: Node, k: nat)
    requires CanRebalance(s, r, p, q, l, x, k)
    ensures l in Redistribute(s, r, p, q, l, x, k)
    ensures Off(Redistribute(s, r, p, q, l, x, k), r, x) == Off(s, r, l) + |Redistribute(s, r, p, q, l, x, k)[l].cont|
      + 1
  {
    RebalanceReady(s, r, p, q, l, x, k);
    MergeSelf(s, r, p, q, l, x);
    var m := MergeStore(s, r, p, q, l, x);
    assert l in SplitStore(m, r, p, q, l, x, k) && SplitStore(m, r, p, q, l, x, k)[l] == SplitLeft(m, l, k);
    hide SplitStore, CanMerge, MergeStore, SplitLeft;
    MergeOff(s, r, p, q, l, x, l);
    SplitOffNew(m, r, p, q, l, x, k);
  }

  /** The joined values of two neighbours and the value between them, dealt out with k to the left. */
  ghost function DealLeft(c: Rec, d: Entry, xc: Rec, k: nat): Rec {
    var w := c.vals + [d] + xc.vals;
    if k < |w| then c.(vals := w[..k], kids := Take(c.kids + xc.kids, k + 1)) else c
  }

  ghost function DealRight(c: Rec, d: Entry, xc: Rec, k: nat): Rec {
    var w := c.vals + [d] + xc.vals;
    if k < |w| then xc.(vals := w[k + 1..], kids := Drop(c.kids + xc.kids, k + 1)) else xc
  }

  ghost function DealParent(pc: Rec, q: nat, c: Rec, xc: Rec, k: nat): Rec {
    if q < |pc.vals| && k < |c.vals| + 1 + |xc.vals| then
      pc.(vals := pc.vals[q := (c.vals + [pc.vals[q]] + xc.vals)[k]])
    else pc
  }

  lemma DealtRecords(s: Store, m: Store, p: Node, q: nat, l: Node, x: Node, k: nat)
    requires l in s && x in s && p in s && l in m && p in m && q < |s[p].vals| && |s[p].kids| == |s[p].vals| + 1
    requires m[l] == MergeLeft(s, l, s[p].vals[q], x) && m[p] == MergeParent(s, p, q) && k < |m[l].vals|
    requires s[p].kids[q + 1] == x && s[l].parent == s[x].parent && s[l].position + 1 == s[x].position
    ensures SameHeap(SplitLeft(m, l, k), DealLeft(s[l], s[p].vals[q], s[x], k))
    ensures SameHeap(SplitRight(m, l, k), DealRight(s[l], s[p].vals[q], s[x], k))
    ensures SameHeap(SplitParent(m, p, q, l, x, k), DealParent(s[p], q, s[l], s[x], k))
  {
    hide Flat;
  }

  /** The records of the two neighbours and their parent afterwards. */
  lemma RedistributeRecords(s: Store, r: Node, p: Node, q: nat, l: Node, x: Node, k: nat)
    requires CanRebalance(s, r, p, q, l, x, k)
    ensures
      var s' := Redistribute(s, r, p, q, l, x, k);
      && s'.Keys == s.Keys && l in s' && x in s' && p in s' && q < |s[p].vals|
      && SameHeap(s'[l], DealLeft(s[l], s[p].vals[q], s[x], k))
      && SameHeap(s'[x], DealRight(s[l], s[p].vals[q], s[x], k))
      && SameHeap(s'[p], DealParent(s[p], q, s[l], s[x], k))
  {
    hide CanMerge, CanSplit, MergeStore, SplitStore, SplitLeft, SplitRight, SplitParent, SameHeap;
    hide DealLeft, DealRight, DealParent;
    RebalanceReady(s, r, p, q, l, x, k);
    MergeSelf(s, r, p, q, l, x);
    var m := MergeStore(s, r, p, q, l, x);
    SplitSelf(m, r, p, q, l, x, k);
    assert k < |m[l].vals|;
    DealtRecords(s, m, p, q, l, x, k);
  }

  lemma SiblingPlace(s: Store, r: Node, p: Node, q: nat, l: Node, x: Node, y: Node)
    requires CanMerge(s, r, p, q, l, x) && y in s && y != l && y != x && y != r && s[y].parent == p
    ensures s[y].position != q && s[y].position != q + 1
  {
    LinkedNode(s, r, null, y);
  }

  lemma DealtValues(w: seq<Entry>, k: nat)
    requires k < |w|
    ensures w[..k] + [w[k]] + w[k + 1..] == w
  {
  }

  /** Rebalancing keeps the values of the two neighbours and the one between them, in order; k of them are then to the
      left. */
  lemma RedistributeDeals(s: Store, r: Node, p: Node, q: nat, l: Node, x: Node, k: nat)
    requires CanRebalance(s, r, p, q, l, x, k)
    ensures l in s && x in s && p in s && q < |s[p].vals|
    ensures
      var s' := Redistribute(s, r, p, q, l, x, k);
      && l in s' && x in s' && p in s' && q < |s'[p].vals|
      && |s'[l].vals| == k && |s'[x].vals| == |s[l].vals| + |s[x].vals| - k
      && s'[l].vals + [s'[p].vals[q]] + s'[x].vals == s[l].vals + [s[p].vals[q]] + s[x].vals
  {
    DealLinked(s, r, p, q, l, x, k);
    RedistributeRecords(s, r, p, q, l, x, k);
    hide Redistribute, CanMerge, Linked;
    DealtValues(s[l].vals + [s[p].vals[q]] + s[x].vals, k);
  }

  lemma RedistributeIs(s: Store, r: Node, p: Node, q: nat, l: Node, x: Node, k: nat)
    requires CanRebalance(s, r, p, q, l, x, k)
    ensures CanMerge(s, r, p, q, l, x) && CanSplit(MergeStore(s, r, p, q, l, x), r, p, q, l, x, k)
    ensures Redistribute(s, r, p, q, l, x, k) == SplitStore(MergeStore(s, r, p, q, l, x), r, p, q, l, x, k)
  {
    hide CanMerge, MergeStore, SplitStore, CanSplit;
    RebalanceReady(s, r, p, q, l, x, k);
  }

  /** What a merge and then a split of the neighbours l and x below p do to the record c of another node. */
  lemma DealtOther(c: Rec, mc: Rec, dc: Rec, root: bool, p: Node, q: nat, l: Node, x: Node, k: nat, n: nat)
    requires p != l && l != x && x != p && (!root && c.parent == p ==> c.position != q && c.position != q + 1)
    requires SameData(mc, c) && mc.parent == (if !root && c.parent == x then l else c.parent)
    requires mc.position == if !root && c.parent == x then c.position + n
                            else if !root && c.parent == p && c.position > q + 1 then c.position - 1
                            else c.position
    requires SameData(dc, mc) && dc.parent == (if !root && mc.parent == l && mc.position > k then x else mc.parent)
    requires dc.position == if !root && mc.parent == l && mc.position > k then mc.position - (k + 1)
                            else if !root && mc.parent == p && mc.position > q then mc.position + 1
                            else mc.position
    ensures SameData(dc, c)
    ensures
      var i := c.position + (if c.parent == x then n else 0);
      if root || (c.parent != l && c.parent != x) then SameLink(dc, c)
      else dc.parent == (if i <= k then l else x) && dc.position == (if i <= k then i else i - (k + 1))
  {
  }

  /** Every other node afterwards: only the children of the two neighbours are re-linked. */
  lemma RedistributeOther(s: Store, r: Node, p: Node, q: nat, l: Node, x: Node, k: nat, y: Node)
    requires CanRebalance(s, r, p, q, l, x, k) && y in s && y != p && y != l && y != x
    ensures
      var s', i := Redistribute(s, r, p, q, l, x, k), s[y].position + (if s[y].parent == x then |s[l].vals| + 1 else 0);
      && y in s' && SameData(s'[y], s[y])
      && (if y == r || (s[y].parent != l && s[y].parent != x) then SameLink(s'[y], s[y])
          else s'[y].parent == (if i <= k then l else x) && s'[y].position == (if i <= k then i else i - (k + 1)))
  {
    hide *;
    RedistributeIs(s, r, p, q, l, x, k);
    var m := MergeStore(s, r, p, q, l, x);
    MergeSelf(s, r, p, q, l, x);
    if y != r && s[y].parent == p { SiblingPlace(s, r, p, q, l, x, y); }
    MergeOther(s, r, p, q, l, x, y);
    SplitOther(m, r, p, q, l, x, k, y);
    DealtOther(s[y], m[y], SplitStore(m, r, p, q, l, x, k)[y], y == r, p, q, l, x, k, |s[l].vals| + 1);
  }
}
