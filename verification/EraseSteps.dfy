/** Repairing the tree after an erasure: what one merge, rebalance or loss of a level means for the whole tree. */
module EraseSteps {
  import opened Entries
  import opened Weaving
  import opened Trees
  import opened Ranks
  import opened Levels
  import opened Merging
  import opened Mending
  import opened Rebalancing
  import opened Steps
  import opened RootSurgery
  import opened InsertSteps
  import opened Cursors
  import opened LeafSteps
  import opened Choices

  /** Children q and q + 1 of p have been joined. */
  ghost predicate JoinedAt(s: Store, r: Node, p: Node?, q: int, s': Store) {
    && p != null && p in s && 0 <= q && q + 1 < |s[p].kids|
    && CanMerge(s, r, p, q, s[p].kids[q], s[p].kids[q + 1])
    && s' == MergeStore(s, r, p, q, s[p].kids[q], s[p].kids[q + 1])
  }

  lemma IsJoined(s: Store, r: Node, p: Node, q: nat, l: Node, x: Node)
    requires CanMerge(s, r, p, q, l, x)
    ensures JoinedAt(s, r, p, q, MergeStore(s, r, p, q, l, x))
  {
    hide MergeStore, Linked, NodeOk;
  }

  /** What has been done about the small node n is what was chosen; next is the node that now has its place. */
  ghost predicate RepairedBy(repair: Repair, s: Store, r: Node, n: Node, merged: bool, next: Node, s': Store)
    requires n in s
  {
    var p, q := s[n].parent, s[n].position;
    match repair
    case JoinLeft => merged && JoinedAt(s, r, p, q - 1, s') && next == s[p].kids[q - 1]
    case JoinRight => merged && JoinedAt(s, r, p, q, s') && next == n
    case TakeRight(moved) => !merged && DealtAt(s, r, p, q, |s[n].vals| + moved, s') && next == n
    case TakeLeft(moved) =>
      var left := Beside(s, n, -1);
      !merged && left.Holds? && DealtAt(s, r, p, q - 1, left.count - moved, s') && next == n
    case Leave => !merged && s' == s && next == n
  }

  /** What has moved, in numbers. */
  lemma RepairedCounts(repair: Repair, s: Store, r: Node, n: Node, merged: bool, next: Node, s': Store)
    requires Linked(s, r, null) && n in s && n != r && RepairedBy(repair, s, r, n, merged, next, s')
    requires repair.TakeLeft? || repair.TakeRight?
    ensures s[n].parent != null && s[n].parent in s
    ensures
      var kids, q := s[s[n].parent].kids, if repair.TakeLeft? then s[n].position - 1 else s[n].position + 1;
      && 0 <= q < |kids| && kids[q] in s && kids[q] in s' && n in s'
      && |s'[kids[q]].vals| == |s[kids[q]].vals| - repair.moved && |s'[n].vals| == |s[n].vals| + repair.moved
  {
    hide *;
    ChildPlace(s, r, n);
    BesideIs(s, r, n);
    RepairedParts(repair, s, r, n, merged, next, s');
    if repair.TakeLeft? {
      DealtCounts(s, r, s[n].parent, s[n].position - 1, Beside(s, n, -1).count - repair.moved, s');
    } else {
      DealtCounts(s, r, s[n].parent, s[n].position, |s[n].vals| + repair.moved, s');
    }
  }

  lemma RepairedParts(repair: Repair, s: Store, r: Node, n: Node, merged: bool, next: Node, s': Store)
    requires n in s && RepairedBy(repair, s, r, n, merged, next, s')
    ensures repair.TakeLeft? ==>
      && Beside(s, n, -1).Holds?
      && DealtAt(s, r, s[n].parent, s[n].position - 1, Beside(s, n, -1).count - repair.moved, s')
    ensures repair.TakeRight? ==> DealtAt(s, r, s[n].parent, s[n].position, |s[n].vals| + repair.moved, s')
  {
    hide Beside, DealtAt, JoinedAt;
  }

  lemma ByJoinLeft(s: Store, r: Node, n: Node, i: nat, m: nat, next: Node, s': Store)
    requires n in s && |s[n].vals| < m / 2 && FitsWith(Beside(s, n, -1), |s[n].vals|, m)
    requires JoinedAt(s, r, s[n].parent, s[n].position - 1, s') && next == s[s[n].parent].kids[s[n].position - 1]
    ensures RepairedBy(RepairFor(Beside(s, n, -1), |s[n].vals|, Beside(s, n, 1), i, m), s, r, n, true, next, s')
  {
    hide Beside, JoinedAt;
  }

  lemma ByJoinRight(s: Store, r: Node, n: Node, i: nat, m: nat, s': Store)
    requires n in s && |s[n].vals| < m / 2 && FitsWith(Beside(s, n, 1), |s[n].vals|, m)
    requires !FitsWith(Beside(s, n, -1), |s[n].vals|, m) && JoinedAt(s, r, s[n].parent, s[n].position, s')
    ensures RepairedBy(RepairFor(Beside(s, n, -1), |s[n].vals|, Beside(s, n, 1), i, m), s, r, n, true, n, s')
  {
    hide Beside, JoinedAt;
  }

  lemma ByTakeRight(s: Store, r: Node, n: Node, i: nat, m: nat, moved: nat, s': Store)
    requires n in s && |s[n].vals| < m / 2 && Gives(Beside(s, n, 1), |s[n].vals|, i == 0, m)
    requires !FitsWith(Beside(s, n, -1), |s[n].vals|, m) && !FitsWith(Beside(s, n, 1), |s[n].vals|, m)
    requires moved == Min((Beside(s, n, 1).count - |s[n].vals|) / 2, Beside(s, n, 1).count - 1)
    requires DealtAt(s, r, s[n].parent, s[n].position, |s[n].vals| + moved, s')
    ensures RepairedBy(RepairFor(Beside(s, n, -1), |s[n].vals|, Beside(s, n, 1), i, m), s, r, n, false, n, s')
  {
    hide Beside, DealtAt;
  }

  lemma ByTakeLeft(s: Store, r: Node, n: Node, i: nat, m: nat, moved: nat, s': Store)
    requires n in s && |s[n].vals| < m / 2 && Gives(Beside(s, n, -1), |s[n].vals|, i >= |s[n].vals|, m)
    requires !FitsWith(Beside(s, n, -1), |s[n].vals|, m) && !FitsWith(Beside(s, n, 1), |s[n].vals|, m)
    requires !Gives(Beside(s, n, 1), |s[n].vals|, i == 0, m)
    requires moved == Min((Beside(s, n, -1).count - |s[n].vals|) / 2, Beside(s, n, -1).count - 1)
    requires DealtAt(s, r, s[n].parent, s[n].position - 1, Beside(s, n, -1).count - moved, s')
    ensures RepairedBy(RepairFor(Beside(s, n, -1), |s[n].vals|, Beside(s, n, 1), i, m), s, r, n, false, n, s')
  {
    hide Beside, DealtAt;
  }

  lemma ByNothing(s: Store, r: Node, n: Node, i: nat, m: nat)
    requires n in s && |s[n].vals| < m / 2 && (Beside(s, n, -1).Holds? || Beside(s, n, 1).Holds?)
    requires !FitsWith(Beside(s, n, -1), |s[n].vals|, m) && !FitsWith(Beside(s, n, 1), |s[n].vals|, m)
    requires !Gives(Beside(s, n, 1), |s[n].vals|, i == 0, m)
    requires !Gives(Beside(s, n, -1), |s[n].vals|, i >= |s[n].vals|, m)
    ensures RepairedBy(RepairFor(Beside(s, n, -1), |s[n].vals|, Beside(s, n, 1), i, m), s, r, n, false, n, s)
  {
    hide Beside;
  }

  lemma LeafHeight(s: Store, r: Node, n: Node)
    requires Linked(s, r, null) && n in s
    ensures n.leaf <==> s[n].height == 0
  {
    LinkedNode(s, r, null, n);
  }

  /** Work above the leaves leaves the gaps alone. */
  lemma GapBelow(s: Store, r: Node, s': Store, r': Node, h: nat, it: Iter, k: int)
    requires Linked(s, r, null) && Below(s, r, s', r', h) && h > 0 && IsGap(s, r, it, k)
    ensures IsGap(s', r', it, k)
  {
    LeafHeight(s, r, it.node);
  }

  // --- merging ---

  /** Where a gap of l or its right sibling x is once both are one. */
  ghost function JoinedGap(s: Store, l: Node, x: Node, it: Iter): Iter {
    if it.node == x && l in s then Iter(l, it.position + |s[l].vals| + 1) else it
  }

  lemma JoinedGapIs(s: Store, l: Node, x: Node, it: Iter)
    ensures JoinedGap(s, l, x, it) == if it.node == x && l in s then Iter(l, it.position + |s[l].vals| + 1) else it
  {
  }

  lemma JoinGap(s: Store, r: Node, p: Node, q: nat, l: Node, x: Node, it: Iter, k: int)
    requires CanMerge(s, r, p, q, l, x) && IsGap(s, r, it, k) && l in s && (l.leaf ==> it.node == l || it.node == x)
    ensures IsGap(MergeStore(s, r, p, q, l, x), r, JoinedGap(s, l, x, it), k)
  {
    MergeSelf(s, r, p, q, l, x);
    MergeLinks0(s, r, p, q, l, x);
    hide MergeStore, CanMerge, Linked, Off, Below;
    if l.leaf {
      LeafCont(s, r, l);
      MergeOff(s, r, p, q, l, x, l);
    } else {
      LeafHeight(s, r, l);
      JoinBelow(s, r, p, q, l, x);
      assert it.node != x;
      GapBelow(s, r, MergeStore(s, r, p, q, l, x), r, s[l].height, it, k);
    }
  }

  lemma JoinStep(s: Store, r: Node, m: nat, p: Node, q: nat, l: Node, x: Node, e: Node?, rm: Node?, it: Iter, k: int)
    requires CanMerge(s, r, p, q, l, x) && l in s && x in s && Sized(s, r, m, e) && (e == null || e == l || e == x)
    requires |s[l].vals| + 1 + |s[x].vals| <= m && IsRightmost(s, rm) && IsGap(s, r, it, k)
    requires (l.leaf ==> it.node == l || it.node == x)
    ensures
      var s' := MergeStore(s, r, p, q, l, x);
      && s'.Keys == s.Keys - {x} && r in s && r in s' && l in s' && Linked(s', r, null) && Sized(s', r, m, p)
      && s'[r].cont == s[r].cont && s'[r].height == s[r].height && s'[l].parent == p && s'[l].height == s[l].height
      && IsRightmost(s', if rm == x then l else rm) && IsGap(s', r, JoinedGap(s, l, x, it), k)
      && (rm == x ==> x.leaf) && l != r && s[l].parent == s[x].parent == p && s[l].height == s[x].height
  {
    MergeSelf(s, r, p, q, l, x);
    JoinTop(s, r, p, q, l, x);
    hide MergeStore, CanMerge, Linked, Sized, IsGap, JoinedGap;
    MergeLinked(s, r, p, q, l, x);
    JoinSized(s, r, m, p, q, l, x, e);
    JoinEnds(s, r, p, q, l, x, rm);
    JoinGap(s, r, p, q, l, x, it, k);
  }

  lemma JoinTop(s: Store, r: Node, p: Node, q: nat, l: Node, x: Node)
    requires CanMerge(s, r, p, q, l, x)
    ensures r in s && r in MergeStore(s, r, p, q, l, x) && MergeStore(s, r, p, q, l, x)[r].height == s[r].height
  {
    MergeSelf(s, r, p, q, l, x);
    if r != p {
      MergeOther(s, r, p, q, l, x, r);
    }
  }

  // --- rebalancing ---

  /** Where a gap of l or its right sibling x is once their values have been dealt out with n to l. */
  ghost function DealtGap(s: Store, l: Node, x: Node, n: nat, it: Iter): Iter {
    if !l.leaf || l !in s || it.position < 0 then it else
      var j := if it.node == x then |s[l].vals| + 1 + it.position else it.position;
      Iter(GapNode(l, x, n, j), GapPos(n, j))
  }

  /** Values that move to l leave its gaps alone; values that move to x push its gaps back. */
  lemma DealtGapIs(s: Store, l: Node, x: Node, n: nat, it: Iter)
    requires l in s && 0 <= it.position && l != x
    ensures !l.leaf ==> DealtGap(s, l, x, n, it) == it
    ensures l.leaf && it.node == l && it.position <= n ==> DealtGap(s, l, x, n, it) == it
    ensures l.leaf && it.node == x && n <= |s[l].vals| ==>
      DealtGap(s, l, x, n, it) == Iter(x, it.position + (|s[l].vals| - n))
  {
  }

  lemma DealtGapAt(s: Store, l: Node, x: Node, n: nat, it: Iter)
    requires l in s && 0 <= it.position
    ensures
      var j := if it.node == x then |s[l].vals| + 1 + it.position else it.position;
      DealtGap(s, l, x, n, it) == if l.leaf then Iter(GapNode(l, x, n, j), GapPos(n, j)) else it
  {
  }

  lemma DealtGapKept(s: Store, r: Node, p: Node, q: nat, l: Node, x: Node, n: nat, it: Iter, k: int)
    requires CanRebalance(s, r, p, q, l, x, n) && IsGap(s, r, it, k) && l in s && x in s
    requires (l.leaf ==> it.node == l || it.node == x)
    requires n <= |s[l].vals| + |s[x].vals|
    ensures IsGap(Redistribute(s, r, p, q, l, x, n), r, DealtGap(s, l, x, n, it), k)
  {
    var s' := Redistribute(s, r, p, q, l, x, n);
    hide *;
    DealLinked(s, r, p, q, l, x, n);
    GapParts(s, r, it, k);
    DealtGapAt(s, l, x, n, it);
    assert it == Iter(it.node, it.position);
    if l.leaf {
      DealGap(s, r, p, q, l, x, n, it.node == x, it.position);
      var j := if it.node == x then |s[l].vals| + 1 + it.position else it.position;
      RoomGap(s, r, it.node, it.position, s', r, GapNode(l, x, n, j), GapPos(n, j), k);
    } else {
      LeafHeight(s, r, l);
      DealBelow(s, r, p, q, l, x, n);
      GapBelow(s, r, s', r, s[l].height, it, k);
    }
  }

  lemma RefillStep(s: Store, r: Node, m: nat, p: Node, q: nat, l: Node, x: Node, n: nat, e: Node?, rm: Node?, it: Iter,
        k: int)
    requires CanRebalance(s, r, p, q, l, x, n) && l in s && x in s && Sized(s, r, m, e)
    requires (e == null || e == l || e == x)
    requires 1 <= n <= m && 1 <= |s[l].vals| + |s[x].vals| - n <= m && IsRightmost(s, rm)
    requires IsGap(s, r, it, k) && (l.leaf ==> it.node == l || it.node == x)
    ensures
      var s' := Redistribute(s, r, p, q, l, x, n);
      && s'.Keys == s.Keys && r in s && r in s' && Linked(s', r, null) && Sized(s', r, m, null) && IsRightmost(s', rm)
      && s'[r].cont == s[r].cont && s'[r].height == s[r].height && s'[l].height == s[l].height
      && s'[x].height == s[x].height
      && IsGap(s', r, DealtGap(s, l, x, n, it), k)
  {
    hide Redistribute, CanRebalance, Linked, Sized, IsGap, DealtGap;
    DealHeights(s, r, p, q, l, x, n);
    RedistributeLinked(s, r, p, q, l, x, n);
    RedistributeRecords(s, r, p, q, l, x, n);
    hide DealLeft, DealRight, DealParent;
    DealSized(s, r, m, p, q, l, x, n, e);
    DealEnds(s, r, p, q, l, x, n, rm);
    DealEnds(s, r, p, q, l, x, n, r);
    DealEnds(s, r, p, q, l, x, n, l);
    DealEnds(s, r, p, q, l, x, n, x);
    DealtGapKept(s, r, p, q, l, x, n, it, k);
  }

  // --- losing a level ---

  lemma DropStep(s: Store, r: Node, p: Node, m: nat, rm: Node?, it: Iter, k: int)
    requires CanDropLevel(s, r, p) && Sized(s, r, m, r) && IsRightmost(s, rm) && IsGap(s, r, it, k) && r in s && p in s
    requires p != r
    ensures
      var s' := DropLevel(s, r, p);
      && s'.Keys == s.Keys - {p} && Linked(s', r, null) && Sized(s', r, m, null) && IsRightmost(s', rm)
      && s'[r].cont == s[r].cont
      && IsGap(s', r, it, k) && p.maxCount == r.maxCount && s'[r].height + 1 == s[r].height
  {
    var s' := DropLevel(s, r, p);
    DropLevelLinked(s, r, p);
    LinkedNode(s, r, null, r);
    assert KidOk(s, r, r, p, 0);
    SizeAt(s, r, m, r, p);
    SizeAt(s, r, m, r, r);
    forall x | x in s'
      ensures SizeOk(x, s'[x], r, m, null)
    {
      SizeAt(s, r, m, r, x);
    }
    SizedAll(s', r, m, null);
    DropLevelOff(s, r, p, it.node);
  }

  lemma AloneStep(s: Store, r: Node, c: Node, m: nat, it: Iter, k: int)
    requires Linked(s, r, null) && !r.leaf && c in s && c.leaf && r in s && s[r].kids == [c] && Sized(s, r, m, r)
    requires IsGap(s, r, it, k)
    ensures
      var s' := LeafAlone(s, c);
      && s'.Keys == {c} && s.Keys == {r, c} && Linked(s', c, null) && Sized(s', c, m, null) && s'[c].cont == s[r].cont
      && IsGap(s', c, it, k) && s[r].parent == c && s[c].parent == r && s[c].position == 0 && s[c].kids == []
      && s'[c].height + 1 == s[r].height
  {
    LastLeafOnly(s, r, c);
    assert KidOk(s, r, r, c, 0) by { LinkedNode(s, r, null, r); }
    LinkedNode(s, r, null, c);
    LinkedNode(s, r, null, r);
    SizeAt(s, r, m, r, c);
    var s' := LeafAlone(s, c);
    assert NodeOk(s', c, null, c);
    assert SizeOk(c, s'[c], c, m, null);
  }

  // --- taking a value out ---

  lemma RemoveSwapped<T>(w: seq<T>, k: nat)
    requires 0 < k < |w|
    ensures Remove(w[k := w[k - 1]], k - 1) == Remove(w, k)
  {
    assert w[k := w[k - 1]][k..] == [w[k - 1]] + w[k + 1..];
    assert w[..k] == w[..k - 1] + [w[k - 1]];
  }

  /** The store after value i of the internal node n was replaced by its predecessor, value j of the leaf c, which is
      gone there. */
  ghost function Promoted(s: Store, r: Node, n: Node, i: nat, c: Node, j: nat): Store
    requires n in s && c in s && i < |s[n].vals| && j < |s[c].vals|
  {
    var s1 := Replaced(s, r, n, s[n].vals[i := s[c].vals[j]]);
    if c in s1 && j < |s1[c].vals| then Replaced(s1, r, c, Remove(s1[c].vals, j)) else s1
  }

  lemma PromoteStep(s: Store, r: Node, m: nat, n: Node, i: nat, c: Node, j: nat, k: nat)
    requires Linked(s, r, null) && Sized(s, r, m, null) && n in s && !n.leaf && i < |s[n].vals| && k == Rank(s, r, n, i)
    requires c in s && c.leaf && j < |s[c].vals| && Off(s, r, c) + j == k - 1
    ensures
      var s' := Promoted(s, r, n, i, c, j);
      && r in s && k < |s[r].cont| && Linked(s', r, null) && Sized(s', r, m, c) && r in s'
      && s'[r].cont == Remove(s[r].cont, k)
      && IsGap(s', r, Iter(c, j), k - 1)
  {
    hide *;
    var s1 := Replaced(s, r, n, s[n].vals[i := s[c].vals[j]]);
    UpdateStep(s, r, m, n, i, s[c].vals[j], k);
    LeafValue(s, r, c, j);
    RemoveStep(s1, r, m, c, j, k - 1);
    RemoveSwapped(s[r].cont, k);
    PromotedIs(s, r, n, i, c, j);
  }

  lemma LeafValue(s: Store, r: Node, n: Node, i: nat)
    requires Linked(s, r, null) && n in s && n.leaf && i < |s[n].vals|
    ensures Off(s, r, n) + i < |s[r].cont| && s[r].cont[Off(s, r, n) + i] == s[n].vals[i]
  {
    RankAt(s, r, n, i);
  }

  lemma PromotedIs(s: Store, r: Node, n: Node, i: nat, c: Node, j: nat)
    requires n in s && c in s && i < |s[n].vals| && j < |s[c].vals|
    ensures
      var s1 := Replaced(s, r, n, s[n].vals[i := s[c].vals[j]]);
      c in s1 && j < |s1[c].vals| ==> Promoted(s, r, n, i, c, j) == Replaced(s1, r, c, Remove(s1[c].vals, j))
  {
  }

  /** Apart from recorded contents, promoting is putting the two changed lists of values in place. */
  lemma PromotedRecs(s: Store, r: Node, n: Node, i: nat, c: Node, j: nat)
    requires Linked(s, r, null) && n in s && c in s && !n.leaf && c.leaf && i < |s[n].vals| && j < |s[c].vals|
    ensures
      var s' := Promoted(s, r, n, i, c, j);
      var t := PutVals(PutVals(s, n, s[n].vals[i := s[c].vals[j]]), c, Remove(s[c].vals, j));
      s'.Keys == s.Keys && forall x :: x in s ==> OnlyCont(s'[x], t[x]) && s'[x].height == s[x].height
  {
    var vals := s[n].vals[i := s[c].vals[j]];
    var s1 := Replaced(s, r, n, vals);
    ReplacedRecs(s, r, n, vals);
    UpdateLeaf(s, r, n, vals, c);
    PromotedIs(s, r, n, i, c, j);
    ReplacedRecs(s1, r, c, Remove(s1[c].vals, j));
    hide Replaced, Promoted, Linked;
    var s' := Promoted(s, r, n, i, c, j);
    forall x | x in s
      ensures OnlyCont(s'[x], PutVals(PutVals(s, n, vals), c, Remove(s[c].vals, j))[x]) && s'[x].height == s[x].height
    {
      assert OnlyCont(s1[x], PutVals(s, n, vals)[x]);
      assert OnlyCont(s'[x], PutVals(s1, c, Remove(s1[c].vals, j))[x]);
    }
  }
}
