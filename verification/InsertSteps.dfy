/** Making room for an insertion: what one rebalance, split or new root level means for the whole tree. */
module InsertSteps {
  import opened Entries
  import opened Weaving
  import opened Trees
  import opened Ranks
  import opened Levels
  import opened Splitting
  import opened Merging
  import opened Rebalancing
  import opened Mending
  import opened Steps
  import opened Surgery
  import opened RootSurgery
  import opened Choices

  /** From one store to the next the order is kept, everything below n is kept, and (n', i') is the gap (n, i). */
  ghost predicate Kept(s: Store, r: Node, n: Node, i: nat, s': Store, r': Node, n': Node, i': nat) {
    && r in s && r' in s' && n in s && n' in s' && s'[r'].cont == s[r].cont
    && s[r].height <= s'[r'].height <= s[r].height + 1
    && SameGap(s, r, n, i, s', r', n', i') && Below(s, r, s', r', s[n].height)
  }

  ghost predicate MadeRoom(s: Store, r: Node, n: Node, i: nat, s': Store, r': Node, n': Node, i': nat, m: nat) {
    Kept(s, r, n, i, s', r', n', i') && |s'[n'].vals| < m
  }

  lemma KeptThen(s: Store, r: Node, n: Node, i: nat, s1: Store, r1: Node, n1: Node, i1: nat, s': Store, n': Node,
        i': nat, m: nat)
    requires Kept(s, r, n, i, s1, r1, n1, i1) && MadeRoom(s1, r1, n1, i1, s', r1, n', i', m)
    requires s'[r1].height == s1[r1].height
    ensures MadeRoom(s, r, n, i, s', r1, n', i', m)
  {
  }

  /** The node d places to the right of n, below the same parent. */
  ghost function Beside(s: Store, n: Node, d: int): Side {
    if n in s && s[n].parent != null && s[n].parent in s then
      var p: Node, q := s[n].parent, s[n].position + d;
      if 0 <= q < |s[p].kids| && s[p].kids[q] in s then Holds(|s[s[p].kids[q]].vals|) else None
    else None
  }

  /** Children q and q + 1 of p have been rebalanced so that the first holds k values. */
  ghost predicate DealtAt(s: Store, r: Node, p: Node?, q: int, k: int, s': Store) {
    && p != null && p in s && 0 <= q && q + 1 < |s[p].kids| && 0 <= k
    && CanRebalance(s, r, p, q, s[p].kids[q], s[p].kids[q + 1], k)
    && s' == Redistribute(s, r, p, q, s[p].kids[q], s[p].kids[q + 1], k)
  }

  /** Node n, which had m values, has been cut for an insertion at place i: one value has gone up; for an insertion at
      the start the others have all moved to the node beside it, at the end all stay, and otherwise they are shared
      evenly, or with one more beside it. */
  ghost predicate CutFor(s: Store, n: Node, i: nat, m: nat) {
    && n in s && Beside(s, n, 1).Holds?
    && var stays, moved := |s[n].vals|, Beside(s, n, 1).count;
       if i == 0 then stays == 0 && moved == m - 1
       else if i == m then stays == m - 1 && moved == 0
       else stays + moved == m - 1 && stays <= moved <= stays + 1
  }

  /** What has been done to make room at node n is what was chosen. */
  ghost predicate MadeBy(room: Room, s: Store, r: Node, n: Node, s': Store)
    requires n in s
  {
    match room
    case ToLeft(moved) =>
      var left := Beside(s, n, -1);
      left.Holds? && DealtAt(s, r, s[n].parent, s[n].position - 1, left.count + moved, s')
    case ToRight(moved) => DealtAt(s, r, s[n].parent, s[n].position, |s[n].vals| - moved, s')
    case Halve => true
  }

  lemma IsDealt(s: Store, r: Node, p: Node, q: nat, l: Node, x: Node, k: nat)
    requires CanRebalance(s, r, p, q, l, x, k)
    ensures DealtAt(s, r, p, q, k, Redistribute(s, r, p, q, l, x, k))
  {
    hide Redistribute, Linked, NodeOk;
  }

  lemma IsMadeLeft(s: Store, r: Node, n: Node, left: nat, moved: nat, s': Store)
    requires n in s && Beside(s, n, -1) == Holds(left)
    requires DealtAt(s, r, s[n].parent, s[n].position - 1, left + moved, s')
    ensures MadeBy(ToLeft(moved), s, r, n, s')
  {
    hide Beside, DealtAt;
  }

  lemma IsMadeRight(s: Store, r: Node, n: Node, moved: nat, s': Store)
    requires n in s && DealtAt(s, r, s[n].parent, s[n].position, |s[n].vals| - moved, s')
    ensures MadeBy(ToRight(moved), s, r, n, s')
  {
    hide DealtAt;
  }

  /** What has moved, in numbers. */
  lemma MadeCounts(room: Room, s: Store, r: Node, n: Node, s': Store)
    requires Linked(s, r, null) && n in s && n != r && MadeBy(room, s, r, n, s')
    ensures s[n].parent != null && s[n].parent in s
    ensures
      var kids, q := s[s[n].parent].kids, s[n].position;
      match room
      case ToLeft(k) =>
        && 0 < q <= |kids| && kids[q - 1] in s && kids[q - 1] in s' && n in s'
        && |s'[kids[q - 1]].vals| == |s[kids[q - 1]].vals| + k && |s'[n].vals| == |s[n].vals| - k
      case ToRight(k) =>
        && q + 1 < |kids| && kids[q + 1] in s && kids[q + 1] in s' && n in s'
        && |s'[kids[q + 1]].vals| == |s[kids[q + 1]].vals| + k && |s'[n].vals| == |s[n].vals| - k
      case Halve => true
  {
    hide *;
    ChildPlace(s, r, n);
    BesideIs(s, r, n);
    MadeParts(room, s, r, n, s');
    match room
    case ToLeft(k) => DealtCounts(s, r, s[n].parent, s[n].position - 1, Beside(s, n, -1).count + k, s');
    case ToRight(k) => DealtCounts(s, r, s[n].parent, s[n].position, |s[n].vals| - k, s');
    case Halve =>
  }

  lemma MadeParts(room: Room, s: Store, r: Node, n: Node, s': Store)
    requires n in s && MadeBy(room, s, r, n, s')
    ensures room.ToLeft? ==>
      && Beside(s, n, -1).Holds?
      && DealtAt(s, r, s[n].parent, s[n].position - 1, Beside(s, n, -1).count + room.moved, s')
    ensures room.ToRight? ==> DealtAt(s, r, s[n].parent, s[n].position, |s[n].vals| - room.moved, s')
  {
    hide Beside, DealtAt;
  }

  lemma ChildPlace(s: Store, r: Node, n: Node)
    requires Linked(s, r, null) && n in s && n != r
    ensures s[n].parent != null && s[n].parent in s
    ensures s[n].position < |s[s[n].parent].kids| && s[s[n].parent].kids[s[n].position] == n
  {
    LinkedNode(s, r, null, n);
  }

  lemma DealtCounts(s: Store, r: Node, p: Node?, q: int, k: int, s': Store)
    requires DealtAt(s, r, p, q, k, s')
    ensures
      && p != null && p in s && 0 <= q && q + 1 < |s[p].kids|
      && var l, x := s[p].kids[q], s[p].kids[q + 1];
         && l in s && x in s && l in s' && x in s'
         && |s'[l].vals| == k && |s'[x].vals| == |s[l].vals| + |s[x].vals| - k
  {
    hide Redistribute, CanRebalance;
    RedistributeDeals(s, r, p, q, s[p].kids[q], s[p].kids[q + 1], k);
  }

  lemma BesideIs(s: Store, r: Node, n: Node)
    requires Linked(s, r, null) && n in s && n != r
    ensures s[n].parent != null && s[n].parent in s && s[n].position < |s[s[n].parent].kids|
    ensures
      var kids, q := s[s[n].parent].kids, s[n].position;
      && Beside(s, n, -1) == (if q > 0 && kids[q - 1] in s then Holds(|s[kids[q - 1]].vals|) else None)
      && Beside(s, n, 1) == (if q + 1 < |kids| && kids[q + 1] in s then Holds(|s[kids[q + 1]].vals|) else None)
  {
    LinkedNode(s, r, null, n);
  }

  lemma CutCounts(s: Store, r: Node, p: Node, q: nat, n: Node, d: Node, k: nat)
    requires CanSplit(s, r, p, q, n, d, k) && s[n].parent == p && s[n].position == q && p != n
    ensures
      var t := SplitStore(s, r, p, q, n, d, k);
      n in t && |t[n].vals| == k && Beside(t, n, 1).Holds? && k + 1 + Beside(t, n, 1).count == |s[n].vals|
  {
    SplitFacts(s, r, p, q, n, d, k);
    hide CanSplit, SplitStore;
    SplitSelf(s, r, p, q, n, d, k);
    SplitParentIs(s, p, q, n, d, k);
    InsertAt(s[p].kids, q + 1, d, q + 1);
    hide SplitParent, Insert, Flat, DownOk, ContOk;
  }

  lemma SplitCutFor(s: Store, r: Node, n: Node, d: Node, m: nat, i: nat)
    requires n in s && |s[n].vals| == m > 0 && s[n].parent != null && s[n].parent != n && 0 <= SplitPoint(m, m, i)
    requires CanSplit(s, r, s[n].parent, s[n].position, n, d, SplitPoint(m, m, i))
    ensures CutFor(SplitStore(s, r, s[n].parent, s[n].position, n, d, SplitPoint(m, m, i)), n, i, m)
  {
    hide CanSplit, SplitStore, Beside;
    CutCounts(s, r, s[n].parent, s[n].position, n, d, SplitPoint(m, m, i));
  }

  lemma SiblingsMerge(s: Store, r: Node, p: Node, q: nat)
    requires Linked(s, r, null) && p in s && !p.leaf && q + 1 < |s[p].kids|
    ensures CanMerge(s, r, p, q, s[p].kids[q], s[p].kids[q + 1]) && s[s[p].kids[q]].position == q
    ensures s[s[p].kids[q + 1]].position == q + 1
    ensures s[s[p].kids[q]].parent == p == s[s[p].kids[q + 1]].parent && |s[p].vals| + 1 == |s[p].kids|
    ensures s[p].kids[q].leaf == s[p].kids[q + 1].leaf && s[s[p].kids[q]].height == s[s[p].kids[q + 1]].height
    ensures s[p].kids[q] != r
  {
    LinkedNode(s, r, null, p);
    assert KidOk(s, r, p, s[p].kids[q], q) && KidOk(s, r, p, s[p].kids[q + 1], q + 1);
    LinkedNode(s, r, null, s[p].kids[q]);
    LinkedNode(s, r, null, s[p].kids[q + 1]);
  }

  /** What a node other than the root sees when it looks up and to its sides. */
  lemma Around(s: Store, r: Node, n: Node)
    requires Matches(s) && Linked(s, r, null) && n in s && n != r
    ensures n.parent == s[n].parent && n.position == s[n].position && n.parent in s && !n.parent.leaf && r in s
    ensures !r.leaf
    ensures
      var p := s[n].parent;
      && Fits(p, s[p]) && p.count == |s[p].vals| && |s[p].kids| == p.count + 1 <= p.children.Length
      && n.position <= p.count
      && s[p].kids[n.position] == n
      && forall i :: 0 <= i < |s[p].kids| ==> p.children[i] == s[p].kids[i] && s[p].kids[i] in s
  {
    MatchesAt(s, n);
    LinkedNode(s, r, null, n);
    var p := s[n].parent;
    MatchesAt(s, p);
    LinkedNode(s, r, null, p);
    LinkedNode(s, r, null, r);
    forall i | 0 <= i < |s[p].kids|
      ensures p.children[i] == s[p].kids[i] && s[p].kids[i] in s
    {
      assert KidOk(s, r, p, s[p].kids[i], i);
      assert p.children[i] == p.children[..|s[p].kids|][i];
    }
  }

  lemma CountAt(s: Store, r: Node, m: nat, e: Node?, n: Node)
    requires Matches(s) && n in s && Sized(s, r, m, e)
    ensures n.count == |s[n].vals| <= n.maxCount <= m && (n != e ==> 0 < n.count)
    ensures (n != r || !n.leaf ==> n.maxCount == m)
  {
    MatchesAt(s, n);
    SizeAt(s, r, m, e, n);
  }

  /** Rebalancing two neighbours for an insertion at position i of one of them: everything that follows for the tree. */
  lemma DealStep(s: Store, r: Node, m: nat, p: Node, q: nat, l: Node, x: Node, k: nat, right: bool, i: nat, rm: Node?)
    requires CanRebalance(s, r, p, q, l, x, k) && l in s && x in s && i <= |s[if right then x else l].vals|
    requires Sized(s, r, m, null)
    requires 1 <= k <= m && 1 <= |s[l].vals| + |s[x].vals| - k <= m && IsRightmost(s, rm)
    requires
      var j := if right then |s[l].vals| + 1 + i else i; if j <= k then k < m else |s[l].vals| + |s[x].vals| - k < m
    ensures
      var s', j, n := Redistribute(s, r, p, q, l, x, k), if right then |s[l].vals| + 1 + i else i, if right then x
        else l;
      && s'.Keys == s.Keys && Linked(s', r, null) && Sized(s', r, m, null) && IsRightmost(s', rm)
      && MadeRoom(s, r, n, i, s', r, GapNode(l, x, k, j), GapPos(k, j), m)
  {
    var s' := Redistribute(s, r, p, q, l, x, k);
    hide Redistribute, CanRebalance, Linked, Sized, Below, Off;
    RedistributeLinked(s, r, p, q, l, x, k);
    RedistributeRecords(s, r, p, q, l, x, k);
    hide DealLeft, DealRight, DealParent;
    DealSized(s, r, m, p, q, l, x, k, null);
    DealBelow(s, r, p, q, l, x, k);
    DealGap(s, r, p, q, l, x, k, right, i);
    DealShape(s, r, p, q, l, x, k);
    DealEnds(s, r, p, q, l, x, k, rm);
    DealEnds(s, r, p, q, l, x, k, r);
    DealHeights(s, r, p, q, l, x, k);
  }

  lemma DealHeights(s: Store, r: Node, p: Node, q: nat, l: Node, x: Node, k: nat)
    requires CanRebalance(s, r, p, q, l, x, k)
    ensures r in s && l in s && x in s && s[l].height == s[x].height
  {
    MergeSelf(s, r, p, q, l, x);
  }

  lemma CountOf(s: Store, n: Node)
    requires Matches(s) && n in s
    ensures n.count == |s[n].vals|
  {
    MatchesAt(s, n);
  }

  lemma ShiftLeftStep(s: Store, r: Node, m: nat, p: Node, q: nat, l: Node, x: Node, k: nat, toMove: nat, i: nat,
        rm: Node?)
    requires l in s && x in s && i <= |s[x].vals| && Sized(s, r, m, null) && IsRightmost(s, rm) && 1 <= m
    requires k == |s[l].vals| + toMove && CanRebalance(s, r, p, q, l, x, k) && 1 <= toMove < |s[x].vals|
    requires k <= m && |s[x].vals| <= m && (if i < toMove then k < m else |s[x].vals| - toMove < m)
    ensures
      var s' := Redistribute(s, r, p, q, l, x, k);
      && s'.Keys == s.Keys && Linked(s', r, null) && Sized(s', r, m, null) && IsRightmost(s', rm) && |s'[l].vals| == k
      && (if i < toMove then MadeRoom(s, r, x, i, s', r, l, i - toMove + k + 1, m)
        else MadeRoom(s, r, x, i, s', r, x, i - toMove, m))
  {
    hide Redistribute, CanRebalance, Linked, Sized, MadeRoom, GapNode, GapPos;
    DealStep(s, r, m, p, q, l, x, k, true, i, rm);
    GapIs(l, x, k, |s[l].vals| + 1 + i);
    DealShape(s, r, p, q, l, x, k);
  }

  lemma GapIs(l: Node, x: Node, k: nat, j: nat)
    ensures GapNode(l, x, k, j) == (if j <= k then l else x) && GapPos(k, j) == if j <= k then j else j - (k + 1)
  {
  }

  lemma ShiftRightStep(s: Store, r: Node, m: nat, p: Node, q: nat, l: Node, x: Node, k: nat, toMove: nat, i: nat,
        rm: Node?)
    requires l in s && x in s && i <= |s[l].vals| && Sized(s, r, m, null) && IsRightmost(s, rm)
    requires k + toMove == |s[l].vals| <= m && CanRebalance(s, r, p, q, l, x, k) && 1 <= toMove && 1 <= k
    requires |s[x].vals| + toMove <= m && (i <= k || |s[x].vals| + toMove < m)
    ensures
      var s' := Redistribute(s, r, p, q, l, x, k);
      && s'.Keys == s.Keys && Linked(s', r, null) && Sized(s', r, m, null) && IsRightmost(s', rm) && |s'[l].vals| == k
      && (if i > k then MadeRoom(s, r, l, i, s', r, x, i - k - 1, m) else MadeRoom(s, r, l, i, s', r, l, i, m))
  {
    hide Redistribute, CanRebalance, Linked, Sized, MadeRoom, GapNode, GapPos;
    DealStep(s, r, m, p, q, l, x, k, false, i, rm);
    GapIs(l, x, k, i);
    DealShape(s, r, p, q, l, x, k);
  }

  /** The full node n is ready to be split: its parent has room and may be empty until it gets the middle value. */
  ghost predicate ReadyToSplit(s: Store, r: Node, n: Node, m: nat) {
    && n in s && n != r && |s[n].vals| == m && s[n].parent != null && s[n].parent in s && |s[s[n].parent].vals| < m
    && Sized(s, r, m, s[n].parent)
  }

  lemma CanSplitReady(s: Store, r: Node, n: Node, d: Node, m: nat, k: nat)
    requires Linked(s, r, null) && ReadyToSplit(s, r, n, m) && d !in s && d.leaf == n.leaf && k < m
    ensures s[n].position < |s[s[n].parent].kids| && CanSplit(s, r, s[n].parent, s[n].position, n, d, k)
    ensures n.maxCount == m && s[n].parent.maxCount == m
  {
    LinkedNode(s, r, null, n);
    LinkedNode(s, r, null, s[n].parent);
    SizeAt(s, r, m, s[n].parent, n);
    SizeAt(s, r, m, s[n].parent, s[n].parent);
  }

  lemma SplitPlace(s: Store, r: Node, n: Node, d: Node, m: nat, ip: nat)
    requires Matches(s) && Linked(s, r, null) && ReadyToSplit(s, r, n, m) && 3 <= m && ip <= m
    requires d !in s && d.leaf == n.leaf
    ensures 0 <= SplitPoint(m, m, ip) < m && |s[n].vals| == m && s[n].parent != null && s[n].parent in s
    ensures s[n].position < |s[s[n].parent].kids|
    ensures CanSplit(s, r, s[n].parent, s[n].position, n, d, SplitPoint(m, m, ip))
    ensures n.maxCount == m && |s[s[n].parent].vals| < s[n].parent.maxCount
  {
    hide Linked, CanSplit, Sized;
    CanSplitReady(s, r, n, d, m, SplitPoint(m, m, ip));
  }

  lemma SplitStep(s: Store, r: Node, n: Node, d: Node, m: nat, i: nat, k: nat, rm: Node?)
    requires Linked(s, r, null) && ReadyToSplit(s, r, n, m) && d !in s && d.leaf == n.leaf && 3 <= m && i <= m
    requires k == SplitPoint(m, m, i)
    requires d.maxCount == m && IsRightmost(s, rm) && CanSplit(s, r, s[n].parent, s[n].position, n, d, k)
    ensures
      var s', n', i' := SplitStore(s, r, s[n].parent, s[n].position, n, d, k), if i > k then d else n, if i > k then
        i - k - 1 else i;
      && s'.Keys == s.Keys + {d} && r in s' && s'[r].height == s[r].height && |s'[n].vals| == k
      && Linked(s', r, null) && Sized(s', r, m, n') && IsRightmost(s', if rm == n then d else rm)
      && MadeRoom(s, r, n, i, s', r, n', i', m) && (rm == n ==> n.leaf)
  {
    var p, q := s[n].parent, s[n].position;
    CanSplitReady(s, r, n, d, m, k);
    SplitCounts(m, i);
    hide *;
    SplitLinked(s, r, p, q, n, d, k);
    SplitSized(s, r, m, p, q, n, d, i);
    SplitEnds(s, r, p, q, n, d, k, rm);
    SplitBelow(s, r, p, q, n, d, k);
    SplitGap(s, r, p, q, n, d, k, i);
    SplitHeights(s, r, p, q, n, d, k);
    SplitShape(s, r, p, q, n, d, k);
    SplitSelf(s, r, p, q, n, d, k);
    GapIs(n, d, k, i);
    IsMadeRoom(s, r, n, i, SplitStore(s, r, p, q, n, d, k), r, if i > k then d else n, if i > k then i - k - 1
      else i, m);
    RightmostLeaf(s, rm);
  }

  lemma SplitCounts(m: nat, i: nat)
    requires 3 <= m && i <= m
    ensures 0 <= SplitPoint(m, m, i) < m && (i <= SplitPoint(m, m, i) ==> SplitPoint(m, m, i) < m)
  {
  }

  lemma IsMadeRoom(s: Store, r: Node, n: Node, i: nat, s': Store, r': Node, n': Node, i': nat, m: nat)
    requires r in s && r' in s' && n in s && n' in s' && s'[r'].cont == s[r].cont
    requires s[r].height <= s'[r'].height <= s[r].height + 1
    requires SameGap(s, r, n, i, s', r', n', i') && Below(s, r, s', r', s[n].height) && |s'[n'].vals| < m
    ensures MadeRoom(s, r, n, i, s', r', n', i', m)
  {
  }

  lemma RightmostLeaf(s: Store, rm: Node?)
    requires IsRightmost(s, rm)
    ensures rm != null && rm.leaf
  {
  }

  lemma ArrsAdd(s: Store, d: Node)
    ensures Arrs(s.Keys + {d}) == Arrs(s.Keys) + {d.values, d.children}
  {
  }

  lemma RaiseLeafStep(s: Store, r: Node, m: nat, n: Node, i: nat)
    requires Linked(s, r, null) && r.leaf && !n.leaf && Sized(s, r, m, null) && n.maxCount == m && |s[r].vals| == m
    requires i <= m && 3 <= m
    ensures
      var s' := NewRoot(s, r, n);
      && s'.Keys == s.Keys + {n} && Linked(s', n, null) && IsRightmost(s', r) && ReadyToSplit(s', n, r, m)
      && s'[r].parent == n
      && Sized(s', n, m, n) && Kept(s, r, r, i, s', n, r, i)
  {
    SizeAt(s, r, m, null, r);
    LeafRootOnly(s, r);
    LinkedNode(s, r, null, r);
    hide Linked, Sized;
    NewRootStep(s, r, m, n, i);
  }

  lemma RaiseInnerStep(s: Store, r: Node, m: nat, p: Node, rm: Node?, i: nat)
    requires CanAddLevel(s, r, p) && Sized(s, r, m, null) && p.maxCount == m && IsRightmost(s, rm) && |s[r].vals| == m
    requires i <= m && 3 <= m
    ensures
      var s' := AddLevel(s, r, p);
      && s'.Keys == s.Keys + {p} && Linked(s', r, null) && IsRightmost(s', rm) && ReadyToSplit(s', r, p, m)
      && s'[p].parent == r
      && Sized(s', r, m, r) && Kept(s, r, r, i, s', r, p, i)
  {
    NotInStore(s, r, p);
    var s' := AddLevel(s, r, p);
    hide AddLevel, CanAddLevel, Linked, Sized, SameGap, Below;
    AddLevelStep(s, r, m, p, rm, i);
    assert s'[r].vals == [] && p in s' && |s'[p].vals| == m;
    assert ReadyToSplit(s', r, p, m);
  }

  lemma NotInStore(s: Store, r: Node, p: Node)
    requires CanAddLevel(s, r, p)
    ensures r in s && p !in s && r != p && AddLevel(s, r, p).Keys == s.Keys + {p}
  {
  }

  lemma KidAt(s: Store, r: Node, p: Node, q: nat, n: Node)
    requires Linked(s, r, null) && p in s && q < |s[p].kids| && s[p].kids[q] == n
    ensures n in s && n != r && s[n].parent == p && s[n].position == q && s[n].height + 1 == s[p].height && !p.leaf
    ensures !r.leaf
  {
    LinkedNode(s, r, null, p);
    LinkedNode(s, r, null, r);
    assert KidOk(s, r, p, s[p].kids[q], q);
  }

  lemma ParentAt(s: Store, r: Node, n: Node)
    requires Linked(s, r, null) && n in s && n != r
    ensures s[n].parent != null && s[n].parent in s && s[n].position < |s[s[n].parent].kids|
    ensures s[s[n].parent].kids[s[n].position] == n
    ensures s[n].height + 1 == s[s[n].parent].height && !s[n].parent.leaf && |s[n].kids| == if n.leaf then 0
      else |s[n].vals| + 1
  {
    LinkedNode(s, r, null, n);
  }

  /** The parent of n has been given room; n itself is as it was. */
  lemma ParentRoomStep(s: Store, r: Node, m: nat, n: Node, i: nat, p: Node, s': Store, r': Node, p': Node, q': nat)
    requires Linked(s, r, null) && n in s && n != r && s[n].parent == p && |s[n].vals| == m && i <= m && p in s
    requires MadeRoom(s, r, p, s[n].position, s', r', p', q', m) && Linked(s', r', null) && Sized(s', r', m, p')
    ensures ReadyToSplit(s', r', n, m) && s'[n].parent == p' && Kept(s, r, n, i, s', r', n, i) && !r'.leaf
  {
    hide Linked, Sized, Off;
    ParentAt(s, r, n);
    KidAt(s', r', p', q', n);
  }

  lemma RoomAbove(s: Store, r: Node, m: nat, n: Node, i: nat)
    requires Linked(s, r, null) && n in s && n != r && Sized(s, r, m, null) && i <= m && |s[n].vals| == m
    requires s[n].parent != null && s[n].parent in s && |s[s[n].parent].vals| < m
    ensures ReadyToSplit(s, r, n, m) && !r.leaf
    ensures Kept(s, r, n, i, s, r, n, i)
  {
    LinkedNode(s, r, null, n);
    LinkedNode(s, r, null, r);
    HeightsUp(s, r, n);
    assert Sized(s, r, m, s[n].parent) by {
      forall x | x in s
        ensures SizeOk(x, s[x], r, m, s[n].parent)
      {
        SizeAt(s, r, m, null, x);
      }
      SizedAll(s, r, m, s[n].parent);
    }
  }

  method NewNode(leaf: bool, maxCount: nat, parent: Node?, ghost s: Store) returns (n: Node)
    requires Matches(s)
    ensures Matches(s) && fresh(n) && fresh(n.values) && fresh(n.children) && n !in s && Apart(s.Keys + {n})
    ensures Built(n) && n.leaf == leaf && n.maxCount == maxCount && n.count == 0
  {
    n := new Node(leaf, maxCount, parent);
    assert forall x :: x in s ==> x.values in Arrs(s.Keys) && x.children in Arrs(s.Keys);
  }

  lemma FullSize(s: Store, r: Node, m: nat, n: Node)
    requires Sized(s, r, m, null) && n in s && |s[n].vals| == m
    ensures n.maxCount == m
  {
    SizeAt(s, r, m, null, n);
  }

  lemma RootPlace(s: Store, r: Node)
    requires Linked(s, r, null)
    ensures r.leaf ==> s.Keys == {r} && s[r].parent == r && s[r].kids == []
  {
    LinkedNode(s, r, null, r);
    if r.leaf {
      LeafRootOnly(s, r);
    }
  }

  lemma CanRaise(s: Store, r: Node, p: Node)
    requires Linked(s, r, null) && !r.leaf && p !in s && !p.leaf
    ensures CanAddLevel(s, r, p)
  {
  }

  lemma HeightsUp(s: Store, r: Node, n: Node)
    requires Linked(s, r, null) && n in s && n != r
    ensures s[n].parent in s && s[n].height < s[s[n].parent].height <= s[r].height
  {
    LinkedNode(s, r, null, n);
    LinkedNode(s, r, null, s[n].parent);
  }
}
