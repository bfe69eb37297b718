/** The in-place B-tree: insertion, erasure, search and iteration over linked nodes. */
module BTrees {
  import opened Entries
  import opened Weaving
  import opened Trees
  import opened Ranks
  import opened Levels
  import opened Splitting
  import opened Merging
  import opened Rebalancing
  import opened Mending
  import opened Steps
  import opened Surgery
  import opened RootSurgery
  import opened InsertSteps
  import opened Cursors
  import opened LeafSteps
  import opened EraseSteps
  import opened Places
  import opened Choices
  import OrderedMap

  lemma NotStorage(s: Store, t: BTree, r: Node)
    ensures t !in Arrs(s.Keys) && r !in Arrs(s.Keys)
  {
  }

  lemma InArrs(s: Store, n: Node)
    requires n in s
    ensures n.values in Arrs(s.Keys) && n.children in Arrs(s.Keys)
  {
  }

  lemma ArrsOne(s: Store, n: Node)
    requires s.Keys == {n}
    ensures Arrs(s.Keys) == {n.values, n.children}
  {
  }

  lemma CapacityAt(s: Store, r: Node, m: nat, n: Node)
    requires Sized(s, r, m, n) && n in s
    ensures |s[n].vals| <= n.maxCount <= m
  {
    SizeAt(s, r, m, n, n);
  }

  lemma LeafRootSize(s: Store, r: Node)
    requires Linked(s, r, null)
    ensures r in s && (r.leaf ==> s[r].cont == s[r].vals)
  {
    LinkedNode(s, r, null, r);
  }

  lemma MadeRoomParts(s: Store, r: Node, n: Node, i: nat, s': Store, r': Node, n': Node, i': nat, m: nat)
    requires MadeRoom(s, r, n, i, s', r', n', i', m)
    ensures r in s && r' in s' && s[r].height <= s'[r'].height <= s[r].height + 1 && s'[r'].cont == s[r].cont
    ensures SameGap(s, r, n, i, s', r', n', i') && |s'[n'].vals| < m
  {
  }

  lemma RootInner(s: Store, r: Node, n: Node)
    requires Linked(s, r, null) && n in s && !n.leaf
    ensures !r.leaf
  {
    LinkedNode(s, r, null, n);
    LinkedNode(s, r, null, r);
  }

  lemma ParentKids(s: Store, r: Node, n: Node)
    requires Linked(s, r, null) && n in s && n.leaf
    ensures s[n].kids == []
  {
    LinkedNode(s, r, null, n);
  }

  lemma ReplacedMatches(s: Store, r: Node, n: Node, vals: seq<Entry>)
    requires n in s && Matches(PutVals(s, n, vals))
    ensures Matches(Replaced(s, r, n, vals)) && Replaced(s, r, n, vals).Keys == s.Keys
    ensures forall x :: x in s ==> Replaced(s, r, n, vals)[x].height == s[x].height
  {
    ReplacedRecs(s, r, n, vals);
    hide Matches, Replaced;
    MatchesCont(PutVals(s, n, vals), Replaced(s, r, n, vals));
  }

  lemma AtValue(s: Store, r: Node, it: Iter, k: int)
    requires Matches(s) && Linked(s, r, null) && IsAt(s, r, it, k)
    ensures r in s && 0 <= it.position < it.node.values.Length && k < |s[r].cont|
    ensures it.node.values[it.position] == s[r].cont[k]
  {
    NodeFields(s, r, it.node);
    RankAt(s, r, it.node, it.position);
  }

  lemma AtNotEmpty(s: Store, r: Node, it: Iter, k: int, e: Node?)
    requires IsAt(s, r, it, k)
    ensures k < |s[r].cont|
  {
  }

  lemma CanDeal(s: Store, r: Node, p: Node, q: nat, l: Node, x: Node, n: nat)
    requires CanMerge(s, r, p, q, l, x) && l in s && x in s && n < |s[l].vals| + 1 + |s[x].vals|
    ensures CanRebalance(s, r, p, q, l, x, n) && l != x && l.leaf == x.leaf
  {
    MergeSelf(s, r, p, q, l, x);
  }

  lemma RootAbove(s: Store, r: Node, n: Node)
    requires Linked(s, r, null) && n in s && n != r
    ensures !r.leaf && s[n].height < s[r].height
  {
    LinkedNode(s, r, null, n);
    LinkedNode(s, r, null, s[n].parent);
    LinkedNode(s, r, null, r);
  }

  lemma ArrsSub(s: Store, t: Store)
    requires s.Keys <= t.Keys
    ensures Arrs(s.Keys) <= Arrs(t.Keys)
  {
  }

  lemma DenotesAt(s: Store, r: Node, it: Iter, k: int)
    requires Denotes(s, r, it, k) && r in s && k < |s[r].cont|
    ensures IsAt(s, r, it, k)
  {
  }

  lemma RootInnerSize(s: Store, r: Node, n: Node)
    requires Linked(s, r, null) && n in s
    ensures !n.leaf ==> !r.leaf
  {
    if !n.leaf { RootInner(s, r, n); }
  }

  lemma OnlyKid(s: Store, r: Node, c: Node?)
    requires Linked(s, r, null) && r in s && !r.leaf && s[r].vals == [] && |s[r].kids| > 0 && c == s[r].kids[0]
    ensures c != null && c in s && c != r && s[r].kids == [c] && (!c.leaf ==> CanDropLevel(s, r, c))
  {
    LinkedNode(s, r, null, r);
    assert KidOk(s, r, r, s[r].kids[0], 0);
    LinkedNode(s, r, null, s[r].kids[0]);
  }

  lemma SwappedLeaf(s: Store, c: Node, j: nat, n: Node, i: nat)
    requires n in s && c in s && n != c && s[c].kids == [] && j < |s[c].vals| && i < |s[n].vals|
    ensures
      var s1 := SwapVals(s, c, j, n, i);
      c in s1 && |s1[c].vals| == |s[c].vals| && Remove(s1[c].vals, j) == Remove(s[c].vals, j) && s1[c].kids == []
        && s1.Keys == s.Keys
    ensures
      var s1 := SwapVals(s, c, j, n, i);
      PutVals(s1, c, Remove(s[c].vals, j))
        == PutVals(PutVals(s, n, s[n].vals[i := s[c].vals[j]]), c, Remove(s[c].vals, j))
  {
  }

  lemma PromotedMatches(s: Store, r: Node, n: Node, i: nat, c: Node, j: nat)
    requires Linked(s, r, null) && n in s && c in s && !n.leaf && c.leaf && i < |s[n].vals| && j < |s[c].vals|
    requires Matches(PutVals(PutVals(s, n, s[n].vals[i := s[c].vals[j]]), c, Remove(s[c].vals, j)))
    ensures Matches(Promoted(s, r, n, i, c, j)) && Promoted(s, r, n, i, c, j).Keys == s.Keys
    ensures forall x :: x in s ==> Promoted(s, r, n, i, c, j)[x].height == s[x].height
  {
    var t := PutVals(PutVals(s, n, s[n].vals[i := s[c].vals[j]]), c, Remove(s[c].vals, j));
    assert t.Keys == s.Keys;
    PromotedRecs(s, r, n, i, c, j);
    hide *;
    MatchesCont(t, Promoted(s, r, n, i, c, j));
  }

  lemma PromotedEnds(s: Store, r: Node, n: Node, i: nat, c: Node, j: nat, rm: Node?)
    requires Linked(s, r, null) && n in s && c in s && !n.leaf && c.leaf && i < |s[n].vals| && j < |s[c].vals|
    requires !r.leaf ==> IsRightmost(s, rm)
    ensures !r.leaf ==> IsRightmost(Promoted(s, r, n, i, c, j), rm)
  {
    if !r.leaf {
      PromotedRecs(s, r, n, i, c, j);
      hide Promoted, Linked;
      assert OnlyCont(Promoted(s, r, n, i, c, j)[rm],
        PutVals(PutVals(s, n, s[n].vals[i := s[c].vals[j]]), c, Remove(s[c].vals, j))[rm]);
    }
  }

  lemma NothingCut(key: Key, upper: bool)
    ensures Cut([], 0, key, upper)
  {
  }

  lemma HeightWithin(s: Store, r: Node, n: Node)
    requires Linked(s, r, null) && n in s
    ensures r in s && s[n].height <= s[r].height
  {
    Edges(s, r, n);
  }

  lemma CapacityOf(s: Store, r: Node, m: nat, n: Node)
    requires Sized(s, r, m, null) && n in s
    ensures |s[n].vals| <= n.maxCount
  {
    SizeAt(s, r, m, null, n);
  }

  lemma NothingBefore(s: Store, n: Node)
    requires n in s
    ensures Before(s[n].vals, Conts(s, s[n].kids), 0) == []
  {
  }

  lemma MatchesParent(s: Store, r: Node)
    requires Matches(s) && r in s
    ensures r.parent == s[r].parent
  {
    MatchesAt(s, r);
  }

  lemma RightmostUnique(s: Store, r: Node, m: nat, n: Node, rm: Node?)
    requires Linked(s, r, null) && Sized(s, r, m, null) && n in s && n.leaf && s[n].rspine
    requires (r.leaf || IsRightmost(s, rm))
    ensures n == if r.leaf then r else rm
  {
    if r.leaf {
      LeafRootOnly(s, r);
    } else {
      var other: Node := rm;
      EndUnique(s, r, m, Iter(n, |s[n].vals|), Iter(other, |s[other].vals|));
    }
  }

  lemma BetweenRoot(s: Store, r: Node)
    requires r in s && Off(s, r, r) == 0
    ensures Between(s, r, r, Open, Open)
  {
  }

  class BTree {
    const kNodeValues: nat
    var root: Node?
    ghost var st: Store

    /** The nodes are linked as a tree, every one but e fits its size, and the root knows the rightmost leaf. */
    ghost predicate Shape(s: Store, e: Node?)
      reads `root, s.Keys, Arrs(s.Keys)
    {
      && root != null && root in s && 3 <= kNodeValues
      && Matches(s) && Linked(s, root, null) && Sized(s, root, kNodeValues, e)
      && (root.leaf || IsRightmost(s, root.rightmost))
    }

    constructor (kNodeValues: nat)
      requires 3 <= kNodeValues
      ensures Valid() && Contents() == [] && this.kNodeValues == kNodeValues && st == map[]
    {
      this.kNodeValues, root, st := kNodeValues, null, map[];
    }

    lemma Parts(s: Store, e: Node?)
      requires Shape(s, e)
      ensures root != null && root in s && 3 <= kNodeValues && Matches(s) && Linked(s, root, null)
      ensures Sized(s, root, kNodeValues, e)
      ensures root.leaf || IsRightmost(s, root.rightmost)
    {
    }

    lemma Whole(s: Store, e: Node?)
      requires root != null && root in s && 3 <= kNodeValues && Matches(s) && Linked(s, root, null)
      requires Sized(s, root, kNodeValues, e)
      requires root.leaf || IsRightmost(s, root.rightmost)
      ensures Shape(s, e)
    {
    }

    /** Moves toMove values from node to its left sibling, for an insertion at position pos of node. */
    method ShiftLeft(left: Node, node: Node, parent: Node, toMove: nat, pos: nat, ghost s: Store, ghost k: nat)
      returns (node': Node, pos': nat, ghost s': Store)
      requires Shape(s, null) && node in s && left in s && parent in s && pos <= |s[node].vals| && !root.leaf
      requires k == |s[left].vals| + toMove && CanRebalance(s, root, parent, s[left].position, left, node, k)
      requires 1 <= toMove < |s[node].vals|
      requires k <= left.maxCount == node.maxCount == kNodeValues
      requires (if pos < toMove then k < kNodeValues else |s[node].vals| - toMove < kNodeValues)
      modifies s.Keys`parent, s.Keys`position, s.Keys`count, Arrs(s.Keys)
      ensures Shape(s', null) && s'.Keys == s.Keys
      ensures MadeRoom(s, root, node, pos, s', root, node', pos', kNodeValues)
      ensures DealtAt(s, root, parent, s[left].position, k, s')
    {
      hide *;
      Parts(s, null);
      ghost var r, rm := root, root.rightmost;
      NotStorage(s, this, r);
      SizeAt(s, r, kNodeValues, null, node);
      ShiftLeftStep(s, r, kNodeValues, parent, s[left].position, left, node, k, toMove, pos, rm);
      s' := Redistribute(s, r, parent, s[left].position, left, node, k);
      IsDealt(s, r, parent, s[left].position, left, node, k);
      RebalanceNodesRightToLeft(left, node, toMove, s, r, parent, k);
      assert root == r && root.rightmost == rm;
      CountOf(s', left);
      Whole(s', null);
      if pos < toMove {
        node', pos' := left, pos - toMove + left.count + 1;
      } else {
        node', pos' := node, pos - toMove;
      }
    }

    /** Tries to make room in the full node by moving values to its left sibling. */
    method RebalanceWithLeft(node: Node, pos: nat, ghost s: Store)
      returns (done: bool, node': Node, pos': nat, ghost s': Store)
      requires Shape(s, null) && node in s && node != root && |s[node].vals| == kNodeValues && pos <= kNodeValues
      requires 0 < s[node].position
      modifies s.Keys`parent, s.Keys`position, s.Keys`count, Arrs(s.Keys)
      ensures Shape(s', null) && s'.Keys == s.Keys
      ensures if done then MadeRoom(s, root, node, pos, s', root, node', pos', kNodeValues) else s' == s
      ensures
        var moved := MovesLeft(Beside(s, node, -1), pos, kNodeValues);
        done == (moved > 0) && (done ==> MadeBy(ToLeft(moved), s, root, node, s'))
    {
      hide Shape, CanMerge, CanRebalance, Matches, Linked, Sized, MadeRoom, MadeBy, Beside, DealtAt, Redistribute, Fits;
      hide Arrs;
      Parts(s, null);
      done, node', pos', s' := false, node, pos, s;
      Around(s, root, node);
      BesideIs(s, root, node);
      var parent := node.parent;
      var left := parent.children[node.position - 1];
      SiblingsMerge(s, root, parent, node.position - 1);
      CountAt(s, root, kNodeValues, null, left);
      CountAt(s, root, kNodeValues, null, node);
      ghost var r, l := root, left.count;
      NotStorage(s, this, r);
      if left.count < left.maxCount {
        var toMove :=
          Max(1, if pos < left.maxCount then (left.maxCount - left.count) / 2 else left.maxCount - left.count);
        if pos >= toMove || left.count + toMove < left.maxCount {
          CanDeal(s, root, parent, s[left].position, left, node, left.count + toMove);
          node', pos', s' := ShiftLeft(left, node, parent, toMove, pos, s, left.count + toMove);
          IsMadeLeft(s, r, node, l, toMove, s');
          done := true;
        }
      }
    }

    /** Moves toMove values from node to its right sibling, for an insertion at position pos of node. */
    method ShiftRight(node: Node, right: Node, parent: Node, toMove: nat, pos: nat, ghost s: Store, ghost k: nat)
      returns (node': Node, pos': nat, ghost s': Store)
      requires Shape(s, null) && node in s && right in s && parent in s && pos <= |s[node].vals| && !root.leaf
      requires k + toMove == |s[node].vals| && CanRebalance(s, root, parent, s[node].position, node, right, k)
      requires 1 <= toMove && 1 <= k
      requires |s[node].vals| <= node.maxCount == right.maxCount == kNodeValues
      requires |s[right].vals| + toMove <= kNodeValues
      requires pos <= k || |s[right].vals| + toMove < kNodeValues
      modifies s.Keys`parent, s.Keys`position, s.Keys`count, Arrs(s.Keys)
      ensures Shape(s', null) && s'.Keys == s.Keys
      ensures MadeRoom(s, root, node, pos, s', root, node', pos', kNodeValues)
      ensures DealtAt(s, root, parent, s[node].position, k, s')
    {
      hide *;
      Parts(s, null);
      ghost var r, rm := root, root.rightmost;
      NotStorage(s, this, r);
      ShiftRightStep(s, r, kNodeValues, parent, s[node].position, node, right, k, toMove, pos, rm);
      s' := Redistribute(s, r, parent, s[node].position, node, right, k);
      IsDealt(s, r, parent, s[node].position, node, right, k);
      RebalanceNodesLeftToRight(node, right, toMove, s, r, parent, k);
      CountOf(s', node);
      Whole(s', null);
      if pos > node.count {
        node', pos' := right, pos - node.count - 1;
      } else {
        node', pos' := node, pos;
      }
    }

    /** Tries to make room in the full node by moving values to its right sibling. */
    method RebalanceWithRight(node: Node, pos: nat, ghost s: Store)
      returns (done: bool, node': Node, pos': nat, ghost s': Store)
      requires Shape(s, null) && node in s && node != root && |s[node].vals| == kNodeValues && pos <= kNodeValues
      requires s[node].parent in s && s[node].position < |s[s[node].parent].vals|
      modifies s.Keys`parent, s.Keys`position, s.Keys`count, Arrs(s.Keys)
      ensures Shape(s', null) && s'.Keys == s.Keys
      ensures if done then MadeRoom(s, root, node, pos, s', root, node', pos', kNodeValues) else s' == s
      ensures
        var moved := MovesRight(Beside(s, node, 1), pos, kNodeValues);
        done == (moved > 0) && (done ==> MadeBy(ToRight(moved), s, root, node, s'))
    {
      hide Shape, CanMerge, CanRebalance, Matches, Linked, Sized, MadeRoom, MadeBy, Beside, DealtAt, Redistribute, Fits;
      hide Arrs;
      Parts(s, null);
      done, node', pos', s' := false, node, pos, s;
      Around(s, root, node);
      BesideIs(s, root, node);
      var parent := node.parent;
      var right := parent.children[node.position + 1];
      SiblingsMerge(s, root, parent, node.position);
      CountAt(s, root, kNodeValues, null, right);
      CountAt(s, root, kNodeValues, null, node);
      ghost var r := root;
      NotStorage(s, this, r);
      if right.count < right.maxCount {
        var toMove := Max(1, if pos > 0 then (right.maxCount - right.count) / 2 else right.maxCount - right.count);
        if pos <= node.count - toMove || right.count + toMove < right.maxCount {
          CanDeal(s, root, parent, s[node].position, node, right, node.count - toMove);
          node', pos', s' := ShiftRight(node, right, parent, toMove, pos, s, node.count - toMove);
          IsMadeRight(s, r, node, toMove, s');
          done := true;
        }
      }
    }

    ghost predicate Splittable(s: Store, node: Node)
      reads `root, s.Keys, Arrs(s.Keys)
    {
      root != null && !root.leaf && ReadyToSplit(s, root, node, kNodeValues) && Shape(s, s[node].parent)
    }

    lemma SplittableParts(s: Store, node: Node)
      requires Splittable(s, node)
      ensures root != null && root in s && !root.leaf && 3 <= kNodeValues && node in s
      ensures ReadyToSplit(s, root, node, kNodeValues)
      ensures Matches(s) && Linked(s, root, null) && IsRightmost(s, root.rightmost)
    {
    }

    /** The split as such: a new node beside the full one gets its share. */
    method CutNode(node: Node, pos: nat, ghost s: Store) returns (dest: Node, ghost s': Store)
      requires Splittable(s, node) && pos <= kNodeValues
      modifies s.Keys`parent, s.Keys`position, s.Keys`count, Arrs(s.Keys)
      ensures fresh(dest) && fresh(dest.values) && fresh(dest.children) && s'.Keys == s.Keys + {dest} && Matches(s')
      ensures root in s && root in s' && node in s && node in s' && s'[root].height == s[root].height
      ensures Linked(s', root, null)
      ensures
        var k, r := |s'[node].vals|, root;
        var node', pos' := if pos > k then dest else node, if pos > k then pos - k - 1 else pos;
        && Sized(s', r, kNodeValues, node') && MadeRoom(s, r, node, pos, s', r, node', pos', kNodeValues)
        && IsRightmost(s', if r.rightmost == node then dest else r.rightmost) && (r.rightmost == node ==> node.leaf)
      ensures CutFor(s', node, pos, kNodeValues)
    {
      hide *;
      SplittableParts(s, node);
      ghost var r, rm := root, root.rightmost;
      var m := kNodeValues;
      dest := NewNode(node.leaf, m, node.parent, s);
      NotStorage(s, this, r);
      ArrsAdd(s, dest);
      ghost var k, p, q := SplitPoint(m, m, pos), s[node].parent, s[node].position;
      SplitPlace(s, r, node, dest, m, pos);
      SplitStep(s, r, node, dest, m, pos, k, rm);
      SplitCutFor(s, r, node, dest, m, pos);
      SplitNode(node, dest, pos, s, r, p, k);
      s' := SplitStore(s, r, p, q, node, dest, k);
    }

    /** Splits the full node, whose parent has room. */
    method SplitFull(node: Node, pos: nat, ghost s: Store) returns (node': Node, pos': nat, ghost s': Store)
      requires Splittable(s, node) && pos <= kNodeValues
      modifies s.Keys`parent, s.Keys`position, s.Keys`count, Arrs(s.Keys), root`rightmost
      ensures Shape(s', node') && fresh(s'.Keys - s.Keys) && fresh(Arrs(s'.Keys) - Arrs(s.Keys))
      ensures MadeRoom(s, root, node, pos, s', root, node', pos', kNodeValues) && s'[root].height == s[root].height
      ensures CutFor(s', node, pos, kNodeValues)
    {
      hide *;
      SplittableParts(s, node);
      NotStorage(s, this, root);
      var dest;
      dest, s' := CutNode(node, pos, s);
      ArrsAdd(s, dest);
      NotStorage(s', this, root);
      CountOf(s', node);
      if node.leaf && root.rightmost == node {
        root.rightmost := dest;
      }
      if pos > node.count {
        node', pos' := dest, pos - node.count - 1;
      } else {
        node', pos' := node, pos;
      }
      Whole(s', node');
    }

    /** The full root becomes, or hands everything to, the only child of an empty root above it. */
    method RaiseRoot(pos: nat, ghost s: Store) returns (node: Node, ghost s': Store)
      requires Shape(s, null) && |s[root].vals| == kNodeValues && pos <= kNodeValues
      modifies `root, s.Keys`parent, s.Keys`position, s.Keys`count, Arrs(s.Keys)
      ensures Splittable(s', node) && fresh(s'.Keys - s.Keys) && fresh(Arrs(s'.Keys) - Arrs(s.Keys))
      ensures Kept(s, old(root), old(root), pos, s', root, node, pos)
      ensures root.size == (if old(root.leaf) then kNodeValues else old(root.size))
      ensures old(root.leaf) ==> node == old(root)
    {
      hide *;
      Parts(s, null);
      var r, m := root, kNodeValues;
      ghost var rm := root.rightmost;
      CountOf(s, r);
      NotStorage(s, this, r);
      RootPlace(s, r);
      if root.leaf {
        var parent := NewInternalRoot(root, m, s);
        root, node := parent, r;
        s' := NewRoot(s, r, parent);
        RaiseLeafStep(s, r, m, parent, pos);
        ArrsAdd(s, parent);
        IsSplittable(s', node);
      } else {
        node := AddRootLevel(root, s);
        s' := AddLevel(s, r, node);
        CanRaise(s, r, node);
        FullSize(s, r, m, r);
        RaiseInnerStep(s, r, m, node, rm, pos);
        ArrsAdd(s, node);
        IsSplittable(s', node);
      }
    }

    lemma IsSplittable(s: Store, node: Node)
      requires root != null && root in s && !root.leaf && 3 <= kNodeValues && ReadyToSplit(s, root, node, kNodeValues)
      requires Matches(s) && Linked(s, root, null) && IsRightmost(s, root.rightmost)
      ensures Splittable(s, node)
    {
    }

    /** Makes sure that the parent of the full node has room for one more value. */
    method MakeParentRoom(node: Node, ghost pos: nat, ghost s: Store) returns (ghost s': Store)
      requires Shape(s, null) && node in s && node != root && |s[node].vals| == kNodeValues && pos <= kNodeValues
      modifies `root, s.Keys`parent, s.Keys`position, s.Keys`count, Arrs(s.Keys), s.Keys`rightmost
      ensures Splittable(s', node) && fresh(s'.Keys - s.Keys) && fresh(Arrs(s'.Keys) - Arrs(s.Keys))
      ensures Kept(s, old(root), node, pos, s', root, node, pos) && root.size == old(root.size)
      decreases if root != null && root in s && node in s then s[root].height - s[node].height else 0, 0
    {
      hide *;
      Parts(s, null);
      ghost var r, p := root, s[node].parent;
      Around(s, r, node);
      HeightsUp(s, r, node);
      NotStorage(s, this, r);
      CountAt(s, r, kNodeValues, null, node.parent);
      s' := s;
      if node.parent.count == node.parent.maxCount {
        ghost var p', q';
        ghost var cut;
        p', q', s', cut := RebalanceOrSplit(node.parent, node.position, s);
        Parts(s', p');
        ParentRoomStep(s, r, kNodeValues, node, pos, p, s', root, p', q');
      } else {
        RoomAbove(s, r, kNodeValues, node, pos);
      }
      IsSplittable(s', node);
    }

    lemma RoomIs(s: Store, r: Node, n: Node, i: nat, m: nat)
      requires Matches(s) && Linked(s, r, null) && n in s && n != r && i <= m
      ensures
        var toLeft, toRight := MovesLeft(Beside(s, n, -1), i, m), MovesRight(Beside(s, n, 1), i, m);
        && RoomFor(Beside(s, n, -1), Beside(s, n, 1), i, m) ==
          (if toLeft > 0 then ToLeft(toLeft) else if toRight > 0 then ToRight(toRight) else Halve)
        && (n.position == 0 ==> toLeft == 0)
        && (n.parent != null && n.parent in s && n.position >= n.parent.count ==> toRight == 0)
    {
      hide Linked;
      BesideIs(s, r, n);
      Around(s, r, n);
    }

    /** Tries to make room in the full node by rebalancing with a sibling. */
    method RebalanceWithSibling(node: Node, pos: nat, ghost s: Store)
      returns (done: bool, node': Node, pos': nat, ghost s': Store)
      requires Shape(s, null) && node in s && node != root && |s[node].vals| == kNodeValues && pos <= kNodeValues
      modifies s.Keys`parent, s.Keys`position, s.Keys`count, Arrs(s.Keys)
      ensures Shape(s', null) && s'.Keys == s.Keys && !root.leaf
      ensures if done then MadeRoom(s, root, node, pos, s', root, node', pos', kNodeValues) else s' == s
      ensures
        var room := RoomFor(Beside(s, node, -1), Beside(s, node, 1), pos, kNodeValues);
        done == !room.Halve? && (done ==> MadeBy(room, s, root, node, s'))
    {
      hide *;
      Parts(s, null);
      RoomIs(s, root, node, pos, kNodeValues);
      ghost var r := root;
      NotStorage(s, this, r);
      Around(s, r, node);
      done, node', pos', s' := false, node, pos, s;
      if node.position > 0 {
        done, node', pos', s' := RebalanceWithLeft(node, pos, s);
      }
      if !done {
        Parts(s, null);
        Around(s, r, node);
        if node.position < node.parent.count {
          done, node', pos', s' := RebalanceWithRight(node, pos, s);
        }
      }
    }

    /** Makes room for an insertion at position pos of the full node. */
    method RebalanceOrSplit(node: Node, pos: nat, ghost s: Store)
      returns (node': Node, pos': nat, ghost s': Store, ghost cut: Node)
      requires Shape(s, null) && node in s && |s[node].vals| == kNodeValues && pos <= kNodeValues
      modifies `root, s.Keys`parent, s.Keys`position, s.Keys`count, Arrs(s.Keys), s.Keys`rightmost
      ensures Shape(s', node') && !root.leaf && fresh(s'.Keys - s.Keys) && fresh(Arrs(s'.Keys) - Arrs(s.Keys))
      ensures MadeRoom(s, old(root), node, pos, s', root, node', pos', kNodeValues)
      ensures root.size == (if old(root.leaf) then kNodeValues else old(root.size))
      ensures
        var room := if node == old(root) then Halve
          else RoomFor(Beside(s, node, -1), Beside(s, node, 1), pos, kNodeValues);
        if room.Halve? then
          CutFor(s', cut, pos, kNodeValues) && (cut == node || (node == old(root) && !old(root.leaf)))
        else MadeBy(room, s, old(root), node, s')
      decreases if root != null && root in s && node in s then s[root].height - s[node].height else 0, 1
    {
      hide *;
      Parts(s, null);
      ghost var r := root;
      NotStorage(s, this, r);
      var n, done := node, false;
      cut := node;
      if node != root {
        done, node', pos', s' := RebalanceWithSibling(node, pos, s);
        if done {
          WeakenShape(s', node');
          return;
        }
        label L:
        s' := MakeParentRoom(node, pos, s);
        assert forall x :: x in s'.Keys && old(allocated(x)) ==> old@L(allocated(x));
        assert forall x :: x in Arrs(s'.Keys) && old(allocated(x)) ==> old@L(allocated(x));
      } else {
        n, s' := RaiseRoot(pos, s);
        cut := n;
      }
      ghost var s1 := s';
      SplittableParts(s1, n);
      NotStorage(s1, this, root);
      label S:
      node', pos', s' := SplitFull(n, pos, s1);
      assert forall x :: x in s'.Keys && old(allocated(x)) ==> old@S(allocated(x));
      assert forall x :: x in Arrs(s'.Keys) && old(allocated(x)) ==> old@S(allocated(x));
      KeptThen(s, r, node, pos, s1, root, n, pos, s', node', pos', kNodeValues);
      assert s'.Keys - s.Keys <= (s'.Keys - s1.Keys) + (s1.Keys - s.Keys);
      assert Arrs(s'.Keys) - Arrs(s.Keys) <= (Arrs(s'.Keys) - Arrs(s1.Keys)) + (Arrs(s1.Keys) - Arrs(s.Keys));
    }

    lemma WeakenShape(s: Store, e: Node?)
      requires Shape(s, null)
      ensures Shape(s, e)
    {
      forall x | x in s
        ensures SizeOk(x, s[x], root, kNodeValues, e)
      {
        SizeAt(s, root, kNodeValues, null, x);
      }
      SizedAll(s, root, kNodeValues, e);
    }

    // --- insertion ---

    /** The small leaf root gives way to a larger one. */
    method GrowTo(maxCount: nat, ghost s: Store) returns (ghost s': Store)
      requires Shape(s, null) && root.leaf && |s[root].vals| <= maxCount <= kNodeValues
      modifies `root, s.Keys`count, Arrs(s.Keys)
      ensures Shape(s', null) && fresh(root) && root.leaf && root.maxCount == maxCount && s'.Keys == {root}
      ensures fresh(root.values) && fresh(root.children)
      ensures s'[root].height == s[old(root)].height && s'[root].cont == s[old(root)].cont
      ensures s'[root].vals == s[old(root)].vals && Off(s', root, root) == 0 == Off(s, old(root), old(root))
    {
      hide *;
      Parts(s, null);
      var r := root;
      RootPlace(s, r);
      NonEmpty(s, r, kNodeValues, r);
      NodeFields(s, r, r);
      InArrs(s, r);
      var n := GrowLeafRoot(r, maxCount, s);
      GrowStep(s, r, n, kNodeValues);
      root := n;
      s' := GrowRoot(s, r, n);
      Whole(s', null);
    }

    /** Makes sure that there is room for one more value at the gap (node, pos) of a leaf, and counts that value. */
    method MakeRoom(node: Node, pos: nat, ghost s: Store, ghost k: nat)
      returns (node': Node, pos': nat, ghost s': Store)
      requires Shape(s, node) && IsGap(s, root, Iter(node, pos), k) && 0 < node.maxCount
      requires (root.leaf || root.size == |s[root].cont|)
      modifies `root, s.Keys`parent, s.Keys`position, s.Keys`count, Arrs(s.Keys), s.Keys`rightmost, s.Keys`size
      ensures Shape(s', node') && fresh(s'.Keys - s.Keys) && fresh(Arrs(s'.Keys) - Arrs(s.Keys))
      ensures node' in s' && node'.leaf && pos' <= |s'[node'].vals| < node'.maxCount
      ensures IsGap(s', root, Iter(node', pos'), k)
      ensures old(root) in s && s'[root].cont == s[old(root)].cont && (root.leaf || root.size == |s'[root].cont| + 1)
      ensures s[old(root)].height <= s'[root].height <= s[old(root)].height + 1
      ensures |s[node].vals| < node.maxCount ==> s'[root].height == s[old(root)].height
      ensures |s[node].vals| < node.maxCount ==> s' == s && root == old(root) && node' == node && pos' == pos
      ensures |s[node].vals| == node.maxCount < kNodeValues ==>
        && root.leaf && node' == root && pos' == pos
        && root.maxCount == if 2 * node.maxCount < kNodeValues then 2 * node.maxCount else kNodeValues
    {
      hide *;
      Parts(s, node);
      GapParts(s, root, Iter(node, pos), k);
      NodeFields(s, root, node);
      ghost var r := root;
      node', pos', s' := node, pos, s;
      CapacityAt(s, r, kNodeValues, node);
      NotStorage(s, this, r);
      if node.count == node.maxCount {
        FullNode(s, r, kNodeValues, node);
        Whole(s, null);
        RootPlace(s, r);
        if node.maxCount < kNodeValues {
          s' := GrowTo(if 2 * node.maxCount < kNodeValues then 2 * node.maxCount else kNodeValues, s);
          WeakenShape(s', root);
          node' := root;
          ArrsOne(s', root);
          IsGapHere(s', root, Iter(node', pos'));
        } else {
          LeafRootSize(s, r);
          ghost var cut;
          node', pos', s', cut := RebalanceOrSplit(node, pos, s);
          Parts(s', node');
          MadeRoomParts(s, r, node, pos, s', root, node', pos', kNodeValues);
          RoomGap(s, r, node, pos, s', root, node', pos', k);
          LeafCapacity(s', root, kNodeValues, node', node');
          NotStorage(s', this, root);
          root.size := root.size + 1;
          Whole(s', node');
        }
      } else if !root.leaf {
        root.size := root.size + 1;
        Whole(s', node');
      }
    }

    /** The leaf position of the gap in front of the element that an internal position denotes. */
    method LeafGap(it: Iter, ghost s: Store, ghost k: nat) returns (it': Iter)
      requires root != null && it.node in s && !it.node.leaf && Shape(s, null) && IsAt(s, root, it, k)
      ensures Shape(s, it'.node) && IsGap(s, root, it', k) && it'.node.leaf && 0 < it'.node.maxCount
    {
      hide *;
      Parts(s, null);
      StorageAllocated(s);
      RootInner(s, root, it.node);
      it' := DecrementDescend(it, s, root, kNodeValues, k);
      AtParts(s, root, it', k - 1);
      LeafCapacity(s, root, kNodeValues, null, it'.node);
      WeakenShape(s, it'.node);
      it' := it'.(position := it'.position + 1);
    }

    /** Inserts v at the gap k of the order, given as a leaf position or as the internal value it lies in front of. */
    method InternalInsert(it: Iter, v: Entry, ghost s: Store, ghost k: nat) returns (it': Iter, ghost s': Store)
      requires root != null && root in s && (root.leaf || root.size == |s[root].cont|)
      requires it.node in s
      requires if it.node.leaf then Shape(s, it.node) && IsGap(s, root, it, k) && 0 < it.node.maxCount
        else Shape(s, null) && IsAt(s, root, it, k)
      modifies `root, s.Keys`parent, s.Keys`position, s.Keys`count, Arrs(s.Keys), s.Keys`rightmost, s.Keys`size
      ensures root != null && root in s' && Shape(s', null) && fresh(s'.Keys - s.Keys)
      ensures fresh(Arrs(s'.Keys) - Arrs(s.Keys))
      ensures k <= |s[old(root)].cont| && s'[root].cont == Insert(s[old(root)].cont, k, v) && IsAt(s', root, it', k)
      ensures root.leaf || root.size == |s'[root].cont|
      ensures s[old(root)].height <= s'[root].height <= s[old(root)].height + 1
      ensures it.node.leaf && |s[it.node].vals| < it.node.maxCount ==>
        root == old(root) && s'[root].height == s[root].height
    {
      hide *;
      it' := it;
      StorageAllocated(s);
      if !it.node.leaf {
        it' := LeafGap(it, s, k);
      }
      ghost var s1;
      var node, pos;
      GapParts(s, root, it', k);
      label L:
      node, pos, s1 := MakeRoom(it'.node, it'.position, s, k);
      assert forall x :: x in Arrs(s1.Keys) && old(allocated(x)) ==> old@L(allocated(x));
      it' := Iter(node, pos);
      InArrs(s1, node);
      s' := InsertInLeaf(node, pos, v, s1, k);
    }

    method InsertInLeaf(node: Node, pos: nat, v: Entry, ghost s: Store, ghost k: nat) returns (ghost s': Store)
      requires Shape(s, node) && node in s && node.leaf && pos <= |s[node].vals| < node.maxCount
      requires IsGap(s, root, Iter(node, pos), k)
      modifies node`count, node.values, node.children
      ensures Shape(s', null) && s'.Keys == s.Keys && root in s'
      ensures k <= |s[root].cont| && s'[root].cont == Insert(s[root].cont, k, v) && IsAt(s', root, Iter(node, pos), k)
      ensures s'[root].height == s[root].height
    {
      hide *;
      Parts(s, node);
      GapParts(s, root, Iter(node, pos), k);
      ghost var r, rm, vals := root, root.rightmost, Insert(s[node].vals, pos, v);
      ParentKids(s, r, node);
      InsertStep(s, r, kNodeValues, node, pos, v, k);
      NotStorage(s, this, r);
      InArrs(s, node);
      InsertLeafValue(node, pos, v, s);
      s' := Replaced(s, r, node, vals);
      ReplacedMatches(s, r, node, vals);
      if !r.leaf { ReplacedEnds(s, r, node, vals, rm); }
      Whole(s', null);
    }

    // --- erasure ---

    /** Joins right, and the value between, to left; parent loses that value. */
    method MergeInto(left: Node, right: Node, parent: Node, ghost s: Store, ghost e: Node?, ghost it: Iter,
          ghost k: int)
      returns (ghost s': Store)
      requires Shape(s, e) && !root.leaf && (e == null || e == left || e == right) && left in s && right in s
      requires parent in s
      requires CanMerge(s, root, parent, s[left].position, left, right)
      requires |s[left].vals| + 1 + |s[right].vals| <= left.maxCount <= kNodeValues
      requires |s[right].vals| <= right.maxCount && IsGap(s, root, it, k)
      requires (left.leaf ==> it.node == left || it.node == right)
      modifies s.Keys`parent, s.Keys`position, s.Keys`count, Arrs(s.Keys), root`rightmost
      ensures Shape(s', parent) && s'.Keys == s.Keys - {right} && root in s && root in s' && left in s' && left != root
      ensures s'[root].cont == s[root].cont && s'[root].height == s[root].height && s'[left].parent == parent
      ensures s'[left].height == s[left].height
      ensures IsGap(s', root, JoinedGap(s, left, right, it), k) && JoinedAt(s, root, parent, s[left].position, s')
    {
      hide *;
      Parts(s, e);
      ghost var r, rm := root, root.rightmost;
      NotStorage(s, this, r);
      JoinStep(s, r, kNodeValues, parent, s[left].position, left, right, e, rm, it, k);
      MergeNodes(left, right, s, r, parent);
      s' := MergeStore(s, r, parent, s[left].position, left, right);
      IsJoined(s, r, parent, s[left].position, left, right);
      NotStorage(s', this, r);
      if right.leaf && root.rightmost == right {
        root.rightmost := left;
      }
      Whole(s', parent);
    }

    /** Moves toMove values from right to its left sibling node. */
    method PullFromRight(node: Node, right: Node, parent: Node, toMove: nat, ghost s: Store, ghost e: Node?,
          ghost it: Iter, ghost k: int)
      returns (ghost s': Store)
      requires Shape(s, e) && !root.leaf && (e == null || e == node) && node in s && right in s && parent in s
      requires CanMerge(s, root, parent, s[node].position, node, right) && 1 <= toMove < |s[right].vals| <= kNodeValues
      requires |s[node].vals| + toMove <= kNodeValues
      requires node.maxCount == right.maxCount == kNodeValues && IsGap(s, root, it, k)
      requires (node.leaf ==> it.node == node)
      modifies s.Keys`parent, s.Keys`position, s.Keys`count, Arrs(s.Keys)
      ensures Shape(s', null) && s'.Keys == s.Keys && root in s && root in s' && s'[root].cont == s[root].cont
      ensures s'[root].height == s[root].height
      ensures s'[node].height == s[node].height && IsGap(s', root, it, k)
      ensures DealtAt(s, root, parent, s[node].position, |s[node].vals| + toMove, s')
    {
      hide *;
      Parts(s, e);
      ghost var r, rm, n := root, root.rightmost, |s[node].vals| + toMove;
      NotStorage(s, this, r);
      GapParts(s, r, it, k);
      CanDeal(s, r, parent, s[node].position, node, right, n);
      RefillStep(s, r, kNodeValues, parent, s[node].position, node, right, n, e, rm, it, k);
      DealtGapIs(s, node, right, n, it);
      RebalanceNodesRightToLeft(node, right, toMove, s, r, parent, n);
      s' := Redistribute(s, r, parent, s[node].position, node, right, n);
      IsDealt(s, r, parent, s[node].position, node, right, n);
      Whole(s', null);
    }

    /** Moves toMove values from left to its right sibling node. */
    method PullFromLeft(left: Node, node: Node, parent: Node, toMove: nat, ghost s: Store, ghost e: Node?,
          ghost it: Iter, ghost k: int)
      returns (ghost s': Store)
      requires Shape(s, e) && !root.leaf && (e == null || e == node) && node in s && left in s && parent in s
      requires CanMerge(s, root, parent, s[left].position, left, node) && 1 <= toMove < |s[left].vals| <= kNodeValues
      requires |s[node].vals| + toMove <= kNodeValues
      requires node.maxCount == left.maxCount == kNodeValues && IsGap(s, root, it, k) && (node.leaf ==> it.node == node)
      modifies s.Keys`parent, s.Keys`position, s.Keys`count, Arrs(s.Keys)
      ensures Shape(s', null) && s'.Keys == s.Keys && root in s && root in s' && s'[root].cont == s[root].cont
      ensures s'[root].height == s[root].height
      ensures s'[node].height == s[node].height
      ensures IsGap(s', root, if node.leaf then Iter(node, it.position + toMove) else it, k)
      ensures DealtAt(s, root, parent, s[left].position, |s[left].vals| - toMove, s')
    {
      hide *;
      Parts(s, e);
      ghost var r, rm, n := root, root.rightmost, |s[left].vals| - toMove;
      NotStorage(s, this, r);
      GapParts(s, r, it, k);
      CanDeal(s, r, parent, s[left].position, left, node, n);
      RefillStep(s, r, kNodeValues, parent, s[left].position, left, node, n, e, rm, it, k);
      DealtGapIs(s, left, node, n, it);
      RebalanceNodesLeftToRight(left, node, toMove, s, r, parent, n);
      s' := Redistribute(s, r, parent, s[left].position, left, node, n);
      IsDealt(s, r, parent, s[left].position, left, node, n);
      Whole(s', null);
    }

    /** Joins a small node with a neighbour if both fit into one node. */
    method TryMerge(node: Node, pos: nat, ghost s: Store, ghost it: Iter, ghost k: int)
      returns (merged: bool, node': Node, pos': nat, ghost s': Store)
      requires Shape(s, node) && node in s && node != root && |s[node].vals| < kNodeValues / 2
      requires IsGap(s, root, it, k) && (node.leaf ==> it == Iter(node, pos))
      modifies s.Keys`parent, s.Keys`position, s.Keys`count, Arrs(s.Keys), root`rightmost
      ensures root in s && root in s' && s'.Keys <= s.Keys && s'[root].cont == s[root].cont
      ensures s'[root].height == s[root].height
      ensures node' in s' && node' != root && s'[node'].height == s[node].height && node'.leaf == node.leaf
      ensures IsGap(s', root, if node.leaf then Iter(node', pos') else it, k)
      ensures Beside(s, node, -1).Holds? || Beside(s, node, 1).Holds?
      ensures
        if merged then
          && s[node].parent in s' && s'[node'].parent == s[node].parent && Shape(s', s[node].parent)
          && var repair := RepairFor(Beside(s, node, -1), |s[node].vals|, Beside(s, node, 1), pos, kNodeValues);
             RepairedBy(repair, s, root, node, true, node', s')
        else
          && Shape(s, node) && s' == s && node' == node && pos' == pos
          && !FitsWith(Beside(s, node, -1), |s[node].vals|, kNodeValues)
          && !FitsWith(Beside(s, node, 1), |s[node].vals|, kNodeValues)
    {
      hide *;
      Parts(s, node);
      ghost var r, m := root, kNodeValues;
      StorageAllocated(s);
      Around(s, r, node);
      BesideIs(s, r, node);
      HeightsUp(s, r, node);
      NotStorage(s, this, r);
      GapParts(s, r, it, k);
      var parent := node.parent;
      CountAt(s, r, m, node, parent);
      CountAt(s, r, m, node, node);
      Judged(Beside(s, node, -1), node.count, false, m);
      Judged(Beside(s, node, 1), node.count, false, m);
      merged, node', pos', s' := false, node, pos, s;
      if node.position > 0 {
        var left := parent.children[node.position - 1];
        SiblingsMerge(s, r, parent, node.position - 1);
        CountAt(s, r, m, node, left);
        if 1 + left.count + node.count <= left.maxCount {
          JoinedGapIs(s, left, node, it);
          pos' := pos + 1 + left.count;
          s' := MergeInto(left, node, parent, s, node, it, k);
          merged, node' := true, left;
          ByJoinLeft(s, r, node, pos, m, left, s');
          return;
        }
      }
      if node.position < parent.count {
        var right := parent.children[node.position + 1];
        SiblingsMerge(s, r, parent, node.position);
        CountAt(s, r, m, node, right);
        if 1 + node.count + right.count <= right.maxCount {
          JoinedGapIs(s, node, right, it);
          s' := MergeInto(node, right, parent, s, node, it, k);
          merged := true;
          ByJoinRight(s, r, node, pos, m, s');
        }
      }
    }

    /** Takes values for a small node from a large neighbour, unless the erasure was at the node's far end and left
        some. */
    method TryRebalance(node: Node, pos: nat, ghost s: Store, ghost it: Iter, ghost k: int)
      returns (pos': nat, ghost s': Store)
      requires Shape(s, node) && node in s && node != root && |s[node].vals| < kNodeValues / 2
      requires IsGap(s, root, it, k) && (node.leaf ==> it == Iter(node, pos))
      requires !FitsWith(Beside(s, node, -1), |s[node].vals|, kNodeValues)
      requires !FitsWith(Beside(s, node, 1), |s[node].vals|, kNodeValues)
      modifies s.Keys`parent, s.Keys`position, s.Keys`count, Arrs(s.Keys)
      ensures root in s && root in s' && s'.Keys == s.Keys && s'[root].cont == s[root].cont
      ensures s'[root].height == s[root].height
      ensures s'[node].height == s[node].height && Shape(s', null)
      ensures IsGap(s', root, if node.leaf then Iter(node, pos') else it, k)
      ensures Beside(s, node, -1).Holds? || Beside(s, node, 1).Holds?
      ensures
        var repair := RepairFor(Beside(s, node, -1), |s[node].vals|, Beside(s, node, 1), pos, kNodeValues);
        RepairedBy(repair, s, root, node, false, node, s')
    {
      hide *;
      Parts(s, node);
      ghost var r, m := root, kNodeValues;
      StorageAllocated(s);
      Around(s, r, node);
      BesideIs(s, r, node);
      HeightsUp(s, r, node);
      NotStorage(s, this, r);
      GapParts(s, r, it, k);
      var parent := node.parent;
      CountAt(s, r, m, node, parent);
      CountAt(s, r, m, node, node);
      Judged(Beside(s, node, -1), node.count, pos >= node.count, m);
      Judged(Beside(s, node, 1), node.count, pos == 0, m);
      pos', s' := pos, s;
      if node.position < parent.count {
        var right := parent.children[node.position + 1];
        SiblingsMerge(s, r, parent, node.position);
        CountAt(s, r, m, node, right);
        if right.count > kNodeValues / 2 && (node.count == 0 || pos > 0) {
          var toMove := Min((right.count - node.count) / 2, right.count - 1);
          s' := PullFromRight(node, right, parent, toMove, s, node, it, k);
          ByTakeRight(s, r, node, pos, m, toMove, s');
          return;
        }
      }
      if node.position > 0 {
        var left := parent.children[node.position - 1];
        SiblingsMerge(s, r, parent, node.position - 1);
        CountAt(s, r, m, node, left);
        if left.count > kNodeValues / 2 && (node.count == 0 || pos < node.count) {
          var toMove := Min((left.count - node.count) / 2, left.count - 1);
          s' := PullFromLeft(left, node, parent, toMove, s, node, it, k);
          pos' := pos + toMove;
          ByTakeLeft(s, r, node, pos, m, toMove, s');
          return;
        }
      }
      FullNode(s, r, m, node);
      Whole(s, null);
      ByNothing(s, r, node, pos, m);
    }

    /** Repairs a node that has become small, as RepairFor chooses; it is the gap to be followed, (node, pos) when node
        is a leaf. */
    method TryMergeOrRebalance(node: Node, pos: nat, ghost s: Store, ghost it: Iter, ghost k: int)
      returns (merged: bool, node': Node, pos': nat, ghost s': Store)
      requires Shape(s, node) && node in s && node != root && |s[node].vals| < kNodeValues / 2
      requires IsGap(s, root, it, k) && (node.leaf ==> it == Iter(node, pos))
      modifies s.Keys`parent, s.Keys`position, s.Keys`count, Arrs(s.Keys), root`rightmost
      ensures root in s && root in s' && s'.Keys <= s.Keys && s'[root].cont == s[root].cont
      ensures s'[root].height == s[root].height
      ensures node' in s' && node' != root && s'[node'].height == s[node].height && node'.leaf == node.leaf
      ensures
        if merged then s[node].parent in s' && s'[node'].parent == s[node].parent && Shape(s', s[node].parent)
        else Shape(s', null)
      ensures IsGap(s', root, if node.leaf then Iter(node', pos') else it, k)
      ensures Beside(s, node, -1).Holds? || Beside(s, node, 1).Holds?
      ensures
        var repair := RepairFor(Beside(s, node, -1), |s[node].vals|, Beside(s, node, 1), pos, kNodeValues);
        RepairedBy(repair, s, root, node, merged, node', s')
    {
      hide *;
      Parts(s, node);
      NotStorage(s, this, root);
      merged, node', pos', s' := TryMerge(node, pos, s, it, k);
      if !merged {
        pos', s' := TryRebalance(node, pos, s, it, k);
      }
    }

    /** Removes an empty root: the tree loses a level, or its last node. */
    method TryShrink(ghost s: Store, ghost it: Iter, ghost k: int) returns (ghost s': Store)
      requires root != null && Shape(s, root) && root in s && IsGap(s, root, it, k)
      requires (root.leaf || root.size == |s[root].cont|)
      modifies `root, s.Keys`parent, s.Keys`position, s.Keys`count, Arrs(s.Keys)
      ensures old(root) in s && s'.Keys <= s.Keys
      ensures if root == null then s[old(root)].cont == [] && s[old(root)].height == 0 else
        root in s' && Shape(s', null) && s'[root].cont == s[old(root)].cont && IsGap(s', root, it, k)
          && (root.leaf || root.size == |s'[root].cont|)
        && s'[root].height <= s[old(root)].height <= s'[root].height + 1
    {
      hide *;
      Parts(s, root);
      ghost var r, rm := root, root.rightmost;
      NodeFields(s, r, r);
      NotStorage(s, this, r);
      CapacityAt(s, r, kNodeValues, r);
      s' := s;
      if root.count > 0 {
        FullNode(s, r, kNodeValues, r);
        Whole(s, null);
        return;
      }
      if root.leaf {
        LeafHeight(s, root, root);
        root := null;
      } else {
        var child := root.children[0];
        OnlyKid(s, r, child);
        if child.leaf {
          AloneStep(s, r, child, kNodeValues, it, k);
          NodeFields(s, r, child);
          s' := LeafAlone(s, child);
          StandAlone(child, s);
          root := child;
          Whole(s', null);
        } else {
          DropStep(s, r, child, kNodeValues, rm, it, k);
          DropRootLevel(child, root, s);
          s' := DropLevel(s, r, child);
          Whole(s', null);
        }
      }
    }

    /** Replaces the internal value k at it by its predecessor, which is taken out of its leaf. */
    method PromoteAndRemove(it: Iter, pred: Iter, ghost s: Store, ghost k: nat) returns (ghost s': Store)
      requires Shape(s, null) && IsAt(s, root, it, k) && !it.node.leaf && IsAt(s, root, pred, k - 1) && pred.node.leaf
      modifies it.node.values, pred.node.values, pred.node`count, pred.node.children
      ensures root in s && k < |s[root].cont|
      ensures Shape(s', pred.node) && s'.Keys == s.Keys && s'[root].height == s[root].height
      ensures s'[root].cont == Remove(s[root].cont, k) && IsGap(s', root, pred, k - 1)
    {
      hide *;
      Parts(s, null);
      AtParts(s, root, it, k);
      AtParts(s, root, pred, k - 1);
      ghost var r, rm := root, root.rightmost;
      var n, i, c, j := it.node, it.position, pred.node, pred.position;
      ParentKids(s, r, c);
      NotStorage(s, this, r);
      InArrs(s, n);
      InArrs(s, c);
      RootInner(s, r, n);
      NodeFields(s, r, n);
      NodeFields(s, r, c);
      ghost var s1 := SwapVals(s, c, j, n, i);
      SwapNodeValues(c, j, n, i, s);
      SwappedLeaf(s, c, j, n, i);
      RemoveLeafValue(c, j, s1);
      PromoteStep(s, r, kNodeValues, n, i, c, j, k);
      PromotedMatches(s, r, n, i, c, j);
      PromotedEnds(s, r, n, i, c, j, rm);
      s' := Promoted(s, r, n, i, c, j);
      Whole(s', c);
    }

    method RemoveFromLeaf(it: Iter, ghost s: Store, ghost k: nat) returns (ghost s': Store)
      requires Shape(s, null) && IsAt(s, root, it, k) && it.node.leaf
      modifies it.node.values, it.node`count, it.node.children
      ensures root in s && k < |s[root].cont|
      ensures Shape(s', it.node) && s'.Keys == s.Keys && s'[root].height == s[root].height
      ensures s'[root].cont == Remove(s[root].cont, k) && IsGap(s', root, it, k)
    {
      hide *;
      Parts(s, null);
      AtParts(s, root, it, k);
      ghost var r, rm := root, root.rightmost;
      var n, i := it.node, it.position;
      ParentKids(s, r, n);
      NotStorage(s, this, r);
      InArrs(s, n);
      RemoveStep(s, r, kNodeValues, n, i, k);
      RemoveLeafValue(n, i, s);
      s' := Replaced(s, r, n, Remove(s[n].vals, i));
      ReplacedMatches(s, r, n, Remove(s[n].vals, i));
      if !r.leaf { ReplacedEnds(s, r, n, Remove(s[n].vals, i), rm); }
      Whole(s', n);
    }

    /** Repairs the tree from the leaf it.node, which lost a value, up towards the root; res is the gap it
        afterwards. */
    method RebalanceUp(it: Iter, ghost s: Store, ghost k: int) returns (res: Iter, ghost s': Store)
      requires root != null && root in s && it.node in s && Shape(s, it.node) && IsGap(s, root, it, k)
      requires (root.leaf || root.size == |s[root].cont|)
      modifies `root, s.Keys`parent, s.Keys`position, s.Keys`count, Arrs(s.Keys), s.Keys`rightmost
      ensures old(root) in s && s'.Keys <= s.Keys
      ensures if root == null then s[old(root)].cont == [] && s[old(root)].height == 0 && res == Iter(null, 0) else
        && root in s' && Shape(s', null) && s'[root].cont == s[old(root)].cont
        && (root.leaf || root.size == |s'[root].cont|)
        && s'[root].height <= s[old(root)].height <= s'[root].height + 1
        && IsGap(s', root, res, k)
    {
      hide *;
      GapParts(s, root, it, k);
      var node: Node, position: nat := it.node, it.position;
      ghost var r := root;
      res, s' := it, s;
      while true
        invariant root == r && r in s' && node in s' && Shape(s', node) && s'.Keys <= s.Keys && s'[r].cont == s[r].cont
        invariant s'[r].height == s[r].height
        invariant IsGap(s', r, res, k) && (node.leaf ==> res == Iter(node, position))
        invariant (r.leaf || r.size == |s'[r].cont|)
        decreases s'[r].height - s'[node].height
      {
        Parts(s', node);
        NotStorage(s', this, r);
        ArrsSub(s', s);
        if node == root {
          s' := TryShrink(s', res, k);
          if root == null {
            res := Iter(null, 0);
          }
          return;
        }
        NodeFields(s', r, node);
        if node.count >= kNodeValues / 2 {
          FullNode(s', r, kNodeValues, node);
          Whole(s', null);
          return;
        }
        var merged, next, pos;
        ghost var s0 := s';
        RootAbove(s0, r, node);
        merged, next, pos, s' := TryMergeOrRebalance(node, position, s0, res, k);
        if next.leaf {
          res := Iter(next, pos);
        }
        if !merged {
          return;
        }
        Parts(s', s0[node].parent);
        Around(s', r, next);
        HeightsUp(s', r, next);
        node, position := next.parent, pos;
      }
    }

    /** From the gap k to the element behind it, and one further if an internal value was erased. */
    method Settle(it: Iter, ghost s: Store, ghost k: nat, skip: bool) returns (it': Iter)
      requires Shape(s, null) && IsGap(s, root, it, k) && root in s && (skip ==> k < |s[root].cont|)
      ensures Denotes(s, root, it', if skip then k + 1 else k)
    {
      hide *;
      Parts(s, null);
      StorageAllocated(s);
      GapParts(s, root, it, k);
      NodeFields(s, root, it.node);
      NonEmpty(s, root, kNodeValues, it.node);
      it' := it;
      if it'.position == it'.node.count {
        it' := it'.(position := it'.node.count - 1);
        IsIter(s, root, it', k - 1);
        it' := Increment(it', s, root, kNodeValues, k - 1);
      } else {
        IsIter(s, root, it', k);
      }
      if skip {
        DenotesAt(s, root, it', k);
        it' := Increment(it', s, root, kNodeValues, k);
      }
    }

    /** Erases the element k that it points at; the result points at the element that takes its place. */
    method Erase(it: Iter, ghost s: Store, ghost k: nat) returns (it': Iter, ghost s': Store)
      requires root != null && Shape(s, null) && root in s && IsAt(s, root, it, k)
      requires (root.leaf || root.size == |s[root].cont|)
      modifies `root, s.Keys`parent, s.Keys`position, s.Keys`count, Arrs(s.Keys), s.Keys`rightmost, s.Keys`size
      ensures old(root) in s && s'.Keys <= s.Keys && k < |s[old(root)].cont|
      ensures if root == null then
        Remove(s[old(root)].cont, k) == [] && s[old(root)].height == 0 && it' == Iter(null, 0) else
        && root in s' && Shape(s', null) && s'[root].cont == Remove(s[old(root)].cont, k)
        && (root.leaf || root.size == |s'[root].cont|)
        && s'[root].height <= s[old(root)].height <= s'[root].height + 1
        && Denotes(s', root, it', k)
    {
      hide *;
      Parts(s, null);
      AtParts(s, root, it, k);
      LeafRootSize(s, root);
      RootInnerSize(s, root, it.node);
      StorageAllocated(s);
      NotStorage(s, this, root);
      ghost var w := s[root].cont;
      var internalDelete := !it.node.leaf;
      it' := it;
      if internalDelete {
        it' := DecrementDescend(it, s, root, kNodeValues, k);
        AtParts(s, root, it', k - 1);
        root.size := root.size - 1;
        Whole(s, null);
        InArrs(s, it.node);
        InArrs(s, it'.node);
        s' := PromoteAndRemove(it, it', s, k);
      } else {
        if !root.leaf {
          root.size := root.size - 1;
        }
        Whole(s, null);
        InArrs(s, it.node);
        s' := RemoveFromLeaf(it', s, k);
      }
      ghost var g := if internalDelete then k - 1 else k;
      it', s' := RebalanceUp(it', s', g);
      if root == null {
        return;
      }
      StorageAllocated(s');
      it' := Settle(it', s', g, internalDelete);
    }

    // --- the whole container ---

    /** The container's content in order. */
    ghost function Contents(): seq<Entry>
      reads this
    {
      if root != null && root in st then st[root].cont else []
    }

    /** The number of levels. */
    ghost function Height(): nat
      reads this
    {
      if root != null && root in st then st[root].height + 1 else 0
    }

    ghost predicate Valid()
      reads this, st.Keys, Arrs(st.Keys)
    {
      && 3 <= kNodeValues
      && if root == null then st == map[] else
         Shape(st, null) && Sorted(st[root].cont) && (root.leaf || root.size == |st[root].cont|)
    }

    lemma ValidParts()
      requires Valid()
      ensures 3 <= kNodeValues && Sorted(Contents())
      ensures root == null ==> st == map[] && Contents() == [] && Height() == 0
      ensures root != null ==>
        Shape(st, null) && root in st && Contents() == st[root].cont && (root.leaf || root.size == |Contents()|)
      ensures root != null ==> Height() == st[root].height + 1
    {
    }

    lemma IsValid()
      requires root != null && Shape(st, null) && Sorted(st[root].cont) && (root.leaf || root.size == |st[root].cont|)
      ensures Valid() && root in st && Contents() == st[root].cont && Height() == st[root].height + 1
    {
    }

    /** The iterator it points at element k, or past the end. */
    ghost predicate Points(it: Iter, k: int)
      reads this
    {
      if root == null then it == Iter(null, 0) && k == 0 else Denotes(st, root, it, k)
    }

    method NewLeafRoot(maxCount: nat) returns (ghost s: Store)
      requires root == null && 0 < maxCount <= kNodeValues && 3 <= kNodeValues
      modifies `root
      ensures root != null && fresh(root) && Shape(s, root) && root.leaf && root.maxCount == maxCount && root in s
      ensures s[root].cont == [] && s[root].height == 0
      ensures fresh(s.Keys) && fresh(Arrs(s.Keys))
    {
      root := new Node(true, maxCount, null);
      root.parent := root;
      s := map[root := Rec(root, 0, [], [], 0, [], true, true)];
      ArrsOne(s, root);
      assert NodeOk(s, root, null, root);
      assert SizeOk(root, s[root], root, kNodeValues, root);
    }

    /** Inserts v unless its key is present; it points at the entry with that key. */
    method InsertUnique(v: Entry) returns (it: Iter, inserted: bool, ghost k: nat)
      requires Valid()
      modifies this, st.Keys, Arrs(st.Keys)
      ensures Valid() && fresh(st.Keys - old(st.Keys)) && fresh(Arrs(st.Keys) - Arrs(old(st.Keys)))
      ensures inserted == !HasKey(old(Contents()), v.key) && Cut(old(Contents()), k, v.key, false)
      ensures k <= |old(Contents())|
      ensures Contents() == if inserted then old(Contents())[..k] + [v] + old(Contents())[k..] else old(Contents())
      ensures Points(it, k) && k < |Contents()| && Contents()[k].key == v.key
      ensures old(Height()) <= Height() <= old(Height()) + 1
      ensures old(root) == null ==> root != null && root.leaf && root.maxCount == 1
    {
      hide *;
      ValidParts();
      ghost var s, w := st, Contents();
      ghost var e: Node? := null;
      if root == null {
        s := NewLeafRoot(1);
        e := root;
      }
      label L:
      Parts(s, e);
      assert s[root].cont == w;
      StorageAllocated(s);
      it, k := InternalLocate(root, v.key, s);
      var last := InternalLast(it, s, root, k);
      if last.node != null { AtValue(s, root, last, k); }
      if last.node != null && !(v.key < last.node.values[last.position].key) {
        it, inserted, st := last, false, s;
        AtNotEmpty(s, root, last, k, e);
        CutHas(w, k, v.key);
        NotStorage(s, this, root);
        IsValid();
        AtPoints(it, k);
      } else {
        GapCapacity(s, it, k, e);
        GapParts(s, root, it, k);
        ghost var s';
        it, s' := InternalInsert(it, v, s, k);
        NotStorage(s', this, root);
        inserted, st := true, s';
        CutHas(w, k, v.key);
        InsertSorted(w, k, v);
        IsValid();
        AtPoints(it, k);
        assert forall x :: x in s'.Keys && old(allocated(x)) ==> old@L(allocated(x));
        assert forall x :: x in Arrs(s'.Keys) && old(allocated(x)) ==> old@L(allocated(x));
        InsertMeans(w, k, v);
      }
      CutMeans(w, k, v.key);
    }

    lemma AtPoints(it: Iter, k: int)
      requires root != null && IsAt(st, root, it, k)
      ensures Points(it, k) && root in st && k < |st[root].cont|
    {
    }

    lemma GapCapacity(s: Store, it: Iter, k: int, e: Node?)
      requires Shape(s, e) && (e == null || (e == root && root.leaf && root.maxCount > 0)) && IsGap(s, root, it, k)
      ensures Shape(s, it.node) && 0 < it.node.maxCount && root in s
      ensures e != null && s[root].cont == [] ==> it.node.leaf && |s[it.node].vals| < it.node.maxCount
    {
      SizeAt(s, root, kNodeValues, e, it.node);
      if e == null {
        WeakenShape(s, it.node);
      } else {
        LeafRootOnly(s, root);
      }
    }

    // --- iterators and searches ---

    /** An iterator from an internal search: null stands for the end. */
    ghost predicate Found(it: Iter, k: int)
      reads this
    {
      if it.node == null then k == |Contents()| else root != null && IsAt(st, root, it, k)
    }

    lemma FoundPoints(it: Iter, k: int)
      requires Valid() && Found(it, k) && it.node != null
      ensures Points(it, k) && k < |Contents()|
    {
    }

    method Begin() returns (it: Iter)
      requires Valid()
      ensures Points(it, 0)
    {
      it := Iter(if root == null then null else root.parent, 0);
      if root != null {
        LeftmostAt(st, root, kNodeValues);
        MatchesAt(st, root);
      }
    }

    method End() returns (it: Iter)
      requires Valid()
      ensures Valid() && Points(it, |Contents()|)
    {
      if root == null {
        it := Iter(null, 0);
      } else {
        LinkedNode(st, root, null, root);
        var rightmost := if root.leaf then root else root.rightmost;
        MatchesAt(st, rightmost);
        it := Iter(rightmost, rightmost.count);
      }
    }

    method Next(it: Iter, ghost k: nat) returns (it': Iter)
      requires Valid() && Points(it, k) && k < |Contents()|
      ensures Valid() && Points(it', k + 1) && Contents() == old(Contents())
    {
      it' := Increment(it, st, root, kNodeValues, k);
    }

    method Prev(it: Iter, ghost k: nat) returns (it': Iter)
      requires Valid() && Points(it, k) && 0 < k
      ensures Valid() && Points(it', k - 1)
    {
      it' := Decrement(it, st, root, kNodeValues, k);
    }

    method InternalEnd(it: Iter, ghost k: nat) returns (it': Iter)
      requires Valid() && Found(it, k)
      ensures Valid() && Points(it', k) && Contents() == old(Contents())
    {
      hide *;
      if it.node != null {
        FoundPoints(it, k);
        it' := it;
      } else {
        FoundEnd(it, k);
        it' := End();
      }
    }

    lemma FoundEnd(it: Iter, k: int)
      requires Found(it, k) && it.node == null
      ensures k == |Contents()|
    {
    }

    lemma IsFound(it: Iter, k: int)
      requires root != null && root in st && (if it.node == null then k == |st[root].cont| else IsAt(st, root, it, k))
      ensures Found(it, k)
    {
    }

    lemma NothingFound()
      requires root == null
      ensures Found(Iter(null, 0), 0) && Contents() == []
    {
    }

    method InternalLowerBound(key: Key) returns (it: Iter, ghost k: nat)
      requires Valid()
      ensures Valid() && Found(it, k) && Cut(Contents(), k, key, false)
    {
      hide *;
      it, k := Iter(null, 0), 0;
      ValidParts();
      NothingCut(key, false);
      if root != null {
        StorageAllocated(st);
        Parts(st, null);
        it, k := InternalLocate(root, key, st);
        it := InternalLast(it, st, root, k);
        IsFound(it, k);
        IsValid();
      } else {
        NothingFound();
      }
    }

    method InternalUpperBound(key: Key) returns (it: Iter, ghost k: nat)
      requires Valid()
      ensures Valid() && Found(it, k) && Cut(Contents(), k, key, true)
    {
      hide *;
      it, k := Iter(null, 0), 0;
      ValidParts();
      NothingCut(key, true);
      if root != null {
        StorageAllocated(st);
        Parts(st, null);
        it, k := LocateUpper(root, key, st);
        it := InternalLast(it, st, root, k);
        IsFound(it, k);
        IsValid();
      } else {
        NothingFound();
      }
    }

    /** The first element whose key is not less than key. */
    method LowerBound(key: Key) returns (it: Iter, ghost k: nat)
      requires Valid()
      ensures Points(it, k) && k <= |Contents()|
      ensures k < |Contents()| ==>
        it.node != null && 0 <= it.position < it.node.values.Length && it.node.values[it.position] == Contents()[k]
      ensures forall j :: 0 <= j < k ==> Contents()[j].key < key
      ensures forall j :: k <= j < |Contents()| ==> Contents()[j].key >= key
    {
      hide *;
      it, k := InternalLowerBound(key);
      CutMeans(Contents(), k, key);
      it := InternalEnd(it, k);
      if k < |Contents()| { FoundHere(it, k); }
    }

    /** The first element whose key is greater than key. */
    method UpperBound(key: Key) returns (it: Iter, ghost k: nat)
      requires Valid()
      ensures Points(it, k) && k <= |Contents()|
      ensures k < |Contents()| ==>
        it.node != null && 0 <= it.position < it.node.values.Length && it.node.values[it.position] == Contents()[k]
      ensures forall j :: 0 <= j < k ==> Contents()[j].key <= key
      ensures forall j :: k <= j < |Contents()| ==> Contents()[j].key > key
    {
      hide *;
      it, k := InternalUpperBound(key);
      CutMeans(Contents(), k, key);
      it := InternalEnd(it, k);
      if k < |Contents()| { FoundHere(it, k); }
    }

    /** The element with this key, or null. */
    method InternalFindUnique(key: Key) returns (it: Iter, ghost k: nat)
      requires Valid()
      ensures Valid() && Cut(Contents(), k, key, false)
      ensures
        if HasKey(Contents(), key) then it.node != null && Found(it, k) && k < |Contents()| && Contents()[k].key == key
        else it == Iter(null, 0)
    {
      hide *;
      it, k := InternalLowerBound(key);
      ValidParts();
      CutHas(Contents(), k, key);
      if it.node == null { FoundEnd(it, k); }
      if it.node != null {
        FoundValue(it, k);
      }
      if it.node == null || key < it.node.values[it.position].key {
        it := Iter(null, 0);
      }
    }

    lemma FoundValue(it: Iter, k: int)
      requires Valid() && Found(it, k) && it.node != null
      ensures 0 <= it.position < it.node.values.Length && 0 <= k < |Contents()|
      ensures it.node.values[it.position] == Contents()[k]
    {
      AtValue(st, root, it, k);
    }

    /** The element with this key, or the end. */
    method Find(key: Key) returns (it: Iter, ghost k: nat)
      requires Valid()
      ensures
        if exists j :: 0 <= j < |Contents()| && Contents()[j].key == key then
          && Points(it, k) && k < |Contents()| && Contents()[k].key == key
          && it.node != null && 0 <= it.position < it.node.values.Length && it.node.values[it.position] == Contents()[k]
        else Points(it, |Contents()|)
    {
      hide *;
      it, k := InternalFindUnique(key);
      HasKeyMeans(Contents(), key);
      EndIsFound();
      it := InternalEnd(it, if HasKey(Contents(), key) then k else |Contents()|);
      if HasKey(Contents(), key) { FoundHere(it, k); }
    }

    lemma EndIsFound()
      ensures Found(Iter(null, 0), |Contents()|)
    {
    }

    /** The first element whose key is not less than key. */
    method FindClosest(key: Key) returns (it: Iter, ghost k: nat)
      requires Valid()
      ensures Points(it, k) && k <= |Contents()|
      ensures k < |Contents()| ==>
        it.node != null && 0 <= it.position < it.node.values.Length && it.node.values[it.position] == Contents()[k]
      ensures forall j :: 0 <= j < k ==> Contents()[j].key < key
      ensures forall j :: k <= j < |Contents()| ==> Contents()[j].key >= key
    {
      hide *;
      it, k := InternalLowerBound(key);
      CutMeans(Contents(), k, key);
      it := InternalEnd(it, k);
      if k < |Contents()| { FoundHere(it, k); }
    }

    /** Erases the entry with this key and says whether there was one. */
    method EraseUnique(key: Key) returns (erased: bool, ghost k: nat)
      requires Valid()
      modifies this, st.Keys, Arrs(st.Keys)
      ensures Valid() && st.Keys <= old(st.Keys)
      ensures erased == HasKey(old(Contents()), key) && Cut(old(Contents()), k, key, false)
      ensures erased ==> k < |old(Contents())| && old(Contents())[k].key == key
      ensures Contents() == if erased then old(Contents())[..k] + old(Contents())[k + 1..] else old(Contents())
      ensures Height() <= old(Height()) <= Height() + 1
    {
      hide *;
      ghost var w := Contents();
      var it: Iter;
      it, k := InternalFindUnique(key);
      erased := it.node != null;
      if erased {
        FoundPoints(it, k);
        var next := EraseAt(it, k);
      }
    }

    /** Erases the element at it; the result points at the element that follows it. */
    method EraseAt(it: Iter, ghost k: nat) returns (it': Iter)
      requires Valid() && Points(it, k) && k < |Contents()|
      modifies this, st.Keys, Arrs(st.Keys)
      ensures Valid() && st.Keys <= old(st.Keys) && Points(it', k)
      ensures Contents() == old(Contents())[..k] + old(Contents())[k + 1..]
      ensures Height() <= old(Height()) <= Height() + 1
    {
      hide *;
      ValidParts();
      PointsAt(it, k);
      RemoveMeans(Contents(), k);
      ghost var s, w := st, Contents();
      ghost var s';
      it', s' := Erase(it, s, k);
      st := if root == null then map[] else s';
      if root != null {
        NotStorage(s', this, root);
        OrderedMap.RemoveSorted(w, k);
        IsValid();
        DenotePoints(it', k);
      } else {
        EmptyValid(it', k);
      }
    }

    lemma PointsAt(it: Iter, k: int)
      requires Points(it, k) && 0 <= k < |Contents()|
      ensures root != null && IsAt(st, root, it, k)
    {
    }

    lemma DenotePoints(it: Iter, k: int)
      requires root != null && Denotes(st, root, it, k)
      ensures Points(it, k)
    {
    }

    lemma EmptyValid(it: Iter, k: int)
      requires root == null && st == map[] && it == Iter(null, 0) && 3 <= kNodeValues
      ensures Valid() && Contents() == [] && Height() == 0 && (k == 0 ==> Points(it, k))
    {
    }

    // --- size and height ---

    method Size() returns (n: nat)
      requires Valid()
      ensures n == |Contents()|
    {
      if root == null {
        return 0;
      }
      LeafRootSize(st, root);
      MatchesAt(st, root);
      n := if root.leaf then root.count else root.size;
    }

    /** Counts the nodes from the root by way of the leftmost leaf back to the root. */
    method CountLevels() returns (h: nat)
      requires Valid()
      ensures h == Height()
    {
      hide *;
      h := 0;
      ValidParts();
      if root != null {
        Parts(st, null);
        NodeFields(st, root, root);
        LeftmostAt(st, root, kNodeValues);
        AtParts(st, root, Iter(st[root].parent, 0), 0);
        LeafHeight(st, root, root.parent);
        HeightWithin(st, root, root.parent);
        h := 1;
        var n := root.parent;
        while n != root
          invariant n != null && n in st && h == st[n].height + 1 && st[n].height <= st[root].height
          decreases st[root].height - st[n].height
        {
          NodeFields(st, root, n);
          ParentAt(st, root, n);
          HeightsUp(st, root, n);
          h := h + 1;
          n := n.parent;
        }
      }
    }

    /** Iterators are equal exactly if they are at the same element, or both at the end; so -- undoes ++. */
    lemma EqualIterators(it: Iter, k: int, it': Iter, k': int)
      requires Valid() && Points(it, k) && Points(it', k')
      ensures it == it' <==> k == k'
    {
      if root != null {
        DenotesUnique(st, root, kNodeValues, it, k, it', k');
      }
    }

    /** A tree of height h holds at least 2^h - 1 elements. */
    lemma HeightBound()
      requires Valid()
      ensures |Contents()| >= Pow2(Height()) - 1
    {
      if root != null {
        NodeBound(st, root, kNodeValues, root);
      }
    }

    /** What an iterator at an element reads. */
    lemma FoundHere(it: Iter, k: int)
      requires Valid() && Points(it, k) && 0 <= k < |Contents()|
      ensures it.node != null && 0 <= it.position < it.node.values.Length
      ensures it.node.values[it.position] == Contents()[k]
    {
      AtValue(st, root, it, k);
    }

    // --- the tree's own check ---

    /** Checks of a node, whatever it holds, how many values it has and that their keys ascend within the bounds. */
    method CheckValues(node: Node, lo: Bound, hi: Bound) returns (ok: bool)
      requires node.count <= node.values.Length
      ensures ok <==>
        && 0 < node.count <= node.maxCount
        && (lo.At? ==> lo.key <= node.values[0].key) && (hi.At? ==> node.values[node.count - 1].key <= hi.key)
        && forall i :: 0 < i < node.count ==> node.values[i - 1].key <= node.values[i].key
    {
      if !(0 < node.count <= node.maxCount) {
        return false;
      }
      ok := lo.At? ==> !(node.values[0].key < lo.key);
      ok := ok && (hi.At? ==> !(hi.key < node.values[node.count - 1].key));
      ghost var within := ok;
      var i := 1;
      while i < node.count
        invariant 1 <= i <= node.count
        invariant ok <==> within && forall j :: 0 < j < i ==> node.values[j - 1].key <= node.values[j].key
      {
        ok := ok && !(node.values[i].key < node.values[i - 1].key);
        i := i + 1;
      }
    }

    /** Checks the part of the tree below node, whose keys lie between lo and hi, and counts its values. */
    method InternalVerify(node: Node, lo: Bound, hi: Bound) returns (ok: bool, n: nat)
      requires Valid() && root != null && node in st && Between(st, root, node, lo, hi)
      ensures Valid() && ok && n == |st[node].cont|
      decreases if node in st then st[node].height else 0
    {
      hide *;
      ValidParts();
      Parts(st, null);
      StorageAllocated(st);
      NonEmpty(st, root, kNodeValues, node);
      CapacityOf(st, root, kNodeValues, node);
      NodeFields(st, root, node);
      KeysBetween(st, root, node, lo, hi);
      ok := CheckValues(node, lo, hi);
      n := node.count;
      if !node.leaf {
        NothingBefore(st, node);
        var i := 0;
        while i <= node.count
          invariant 0 <= i <= node.count + 1 && Valid() && |st[node].kids| == |st[node].vals| + 1 && ok
          invariant
            if i <= node.count then n == node.count + |Before(st[node].vals, Conts(st, st[node].kids), i)| - i
            else n == |st[node].cont|
        {
          NodeFields(st, root, node);
          BetweenKid(st, root, node, i, lo, hi);
          CountStep(st, root, node, i);
          var child := node.children[i];
          NodeFields(st, root, child);
          Descend(st, root, node, i);
          ok := ok && child != null && child.parent == node && child.position == i;
          var below,
            c := InternalVerify(child, if i == 0 then lo else At(node.values[i - 1].key), if i == node.count then hi
            else At(node.values[i].key));
          Parts(st, null);
          ok, n := ok && below, n + c;
          i := i + 1;
        }
      }
    }

    /** The leaf reached by always taking the first child is the leftmost one. */
    method FirstLeaf() returns (node: Node)
      requires Valid() && root != null
      ensures node == root.parent && node.leaf
    {
      hide *;
      ValidParts();
      Parts(st, null);
      RootSpines(st, root);
      node := root;
      while !node.leaf
        invariant Matches(st) && node in st && Off(st, root, node) == 0
        decreases st[node].height
      {
        NodeFields(st, root, node);
        Descend(st, root, node, 0);
        node := node.children[0];
        Climb(st, root, node);
      }
      NonEmpty(st, root, kNodeValues, node);
      IsIter(st, root, Iter(node, 0), 0);
      LeftmostAt(st, root, kNodeValues);
      MatchesParent(st, root);
      PlaceUnique(st, root, Iter(node, 0), Iter(root.parent, 0), 0);
    }

    /** The leaf reached by always taking the last child is the rightmost one. */
    method LastLeaf() returns (node: Node)
      requires Valid() && root != null
      ensures node == (if root.leaf then root else root.rightmost) && node.leaf
    {
      hide *;
      ValidParts();
      Parts(st, null);
      RootSpines(st, root);
      node := root;
      while !node.leaf
        invariant Matches(st) && node in st && st[node].rspine
        decreases st[node].height
      {
        NodeFields(st, root, node);
        Descend(st, root, node, node.count);
        node := node.children[node.count];
        Climb(st, root, node);
      }
      RightmostUnique(st, root, kNodeValues, node, root.rightmost);
    }

    /** Every check that the tree can make of itself succeeds. */
    method Verify() returns (ok: bool)
      requires Valid()
      ensures Valid() && ok
    {
      hide *;
      ValidParts();
      if root != null {
        Parts(st, null);
        StorageAllocated(st);
        RootSpines(st, root);
        BetweenRoot(st, root);
        var n;
        ok, n := InternalVerify(root, Open, Open);
        var size := Size();
        var first := FirstLeaf();
        var last := LastLeaf();
        ok := ok && size == n && root.parent == first && (if root.leaf then root else root.rightmost) == last
          && first.leaf && last.leaf;
        IsValid();
      } else {
        var size := Size();
        ok := size == 0;
        EmptyValid(Iter(null, 0), 0);
      }
    }
  }
}
