/** Iterators: a node and a position in it, moved along the in-order sequence by climbing and descending links. */
module Cursors {
  import opened Entries
  import opened Weaving
  import opened Trees
  import opened Ranks
  import opened Steps
  import opened Surgery

  datatype Iter = Iter(node: Node?, position: int)

  /** Where value i of n lies in the order of the whole tree: a value of an internal node follows child i. */
  ghost function Rank(s: Store, r: Node, n: Node, i: nat): nat {
    if n in s && !n.leaf && i < |s[n].kids| && i <= |s[n].vals| then
      Off(s, r, n) + |Before(s[n].vals, Conts(s, s[n].kids), i)| + |Conts(s, s[n].kids)[i]|
    else Off(s, r, n) + i
  }

  /** it is at element k of the order. */
  ghost predicate IsAt(s: Store, r: Node, it: Iter, k: int) {
    r in s && it.node in s && 0 <= it.position < |s[it.node].vals| && Rank(s, r, it.node, it.position) == k
      && k < |s[r].cont|
  }

  ghost predicate IsEnd(s: Store, it: Iter) {
    IsRightmost(s, it.node) && it.position == |s[it.node].vals|
  }

  /** it is at element k, or at the end when there is no such element. */
  ghost predicate Denotes(s: Store, r: Node, it: Iter, k: int) {
    r in s && if k == |s[r].cont| then IsEnd(s, it) else IsAt(s, r, it, k)
  }

  /** it is the gap before element k, as a position in a leaf. */
  ghost predicate IsGap(s: Store, r: Node, it: Iter, k: int) {
    it.node in s && it.node.leaf && 0 <= it.position <= |s[it.node].vals| && Off(s, r, it.node) + it.position == k
  }

  // --- ranks and links ---

  lemma RankAt(s: Store, r: Node, n: Node, i: nat)
    requires Linked(s, r, null) && n in s && i < |s[n].vals|
    ensures Rank(s, r, n, i) < |s[r].cont| && s[r].cont[Rank(s, r, n, i)] == s[n].vals[i]
  {
    SliceAt(s, r, null, n);
    LinkedNode(s, r, null, n);
    var w, o, c := s[r].cont, Off(s, r, n), s[n].cont;
    if n.leaf {
      assert w[o + i] == w[o..o + |c|][i];
    } else {
      var ks := Conts(s, s[n].kids);
      hide Linked, Off, Conts, UpOk, DownOk;
      var j := |Before(s[n].vals, ks, i)| + |ks[i]|;
      WeaveValue(s[n].vals, ks, i);
      hide Before, Weave;
      assert w[o + j] == w[o..o + |c|][j];
    }
  }

  /** What lies on either side of a child, seen from its parent. */
  lemma Climb(s: Store, r: Node, n: Node)
    requires Linked(s, r, null) && n in s && n != r
    ensures
      var p, q := s[n].parent, s[n].position;
      && p in s && !p.leaf && q <= |s[p].vals| && |s[p].kids| == |s[p].vals| + 1 && s[p].kids[q] == n
      && s[n].height < s[p].height <= s[r].height
      && (if q < |s[p].vals| then Rank(s, r, p, q) == Off(s, r, n) + |s[n].cont|
          else Off(s, r, p) + |s[p].cont| == Off(s, r, n) + |s[n].cont|)
      && (if 0 < q then Rank(s, r, p, q - 1) + 1 == Off(s, r, n) else Off(s, r, p) == Off(s, r, n))
      && s[n].rspine == (q == |s[p].vals| && s[p].rspine) && s[n].lspine == (q == 0 && s[p].lspine)
  {
    UpFromNode(s, r, null, n);
    ParentCont(s, r, null, n);
    var p, q := s[n].parent, s[n].position;
    LinkedNode(s, r, null, n);
    LinkedNode(s, r, null, p);
    var ks := Conts(s, s[p].kids);
    hide Linked, Conts;
    WeaveAround(s[p].vals, ks, q);
    assert Off(s, r, n) == Off(s, r, p) + |Before(s[p].vals, ks, q)|;
    hide Off;
    if q == |s[p].vals| {
      assert After(s[p].vals, ks, q) == [];
    }
  }

  lemma Descend(s: Store, r: Node, n: Node, i: nat)
    requires Linked(s, r, null) && n in s && !n.leaf && i <= |s[n].vals|
    ensures
      && i < |s[n].kids| && s[n].kids[i] in s && s[n].kids[i] != r
      && s[s[n].kids[i]].parent == n && s[s[n].kids[i]].position == i && s[s[n].kids[i]].height < s[n].height
  {
    LinkedNode(s, r, null, n);
    assert KidOk(s, r, n, s[n].kids[i], i);
  }

  /** A node on the left edge starts the order; a node on the right edge ends it. */
  lemma {:induction false} Edges(s: Store, r: Node, n: Node)
    requires Linked(s, r, null) && n in s
    ensures s[n].lspine ==> Off(s, r, n) == 0
    ensures s[n].rspine ==> Off(s, r, n) + |s[n].cont| == |s[r].cont|
    ensures Off(s, r, n) + |s[n].cont| <= |s[r].cont| && s[n].height <= s[r].height
    decreases s[r].height - s[n].height
  {
    SliceAt(s, r, null, n);
    if n != r {
      Climb(s, r, n);
      Edges(s, r, s[n].parent);
    }
  }

  /** A node's fields on the heap. */
  lemma NodeFields(s: Store, r: Node, n: Node)
    requires Matches(s) && Linked(s, r, null) && n in s
    ensures n.count == |s[n].vals| <= n.values.Length && n.parent == s[n].parent && n.parent != null
    ensures n.position == s[n].position
    ensures n.parent.leaf <==> n == r
    ensures n.leaf ==> s[n].cont == s[n].vals
    ensures forall i :: 0 <= i < n.count ==> n.values[i] == s[n].vals[i]
    ensures !n.leaf ==> |s[n].kids| == n.count + 1 <= n.children.Length && forall i :: 0 <= i <= n.count ==>
      n.children[i] == s[n].kids[i]
  {
    MatchesAt(s, n);
    LinkedNode(s, r, null, n);
    forall i | 0 <= i < n.count
      ensures n.values[i] == s[n].vals[i]
    {
      assert n.values[i] == n.values[..n.count][i];
    }
    forall i | 0 <= i < |s[n].kids|
      ensures n.children[i] == s[n].kids[i]
    {
      assert n.children[i] == n.children[..|s[n].kids|][i];
    }
  }

  /** The leaf that the root's parent link names is where the order starts. */
  lemma LeftmostAt(s: Store, r: Node, m: nat)
    requires Linked(s, r, null) && Sized(s, r, m, null)
    ensures r in s && s[r].parent != null && IsAt(s, r, Iter(s[r].parent, 0), 0) && |s[r].cont| > 0
  {
    var n := s[r].parent;
    Edges(s, r, n);
    NonEmpty(s, r, m, n);
    RankAt(s, r, n, 0);
  }

  // --- moving ---

  method Increment(it: Iter, ghost s: Store, ghost r: Node, ghost m: nat, ghost k: nat) returns (it': Iter)
    requires Matches(s) && Linked(s, r, null) && Sized(s, r, m, null) && IsAt(s, r, it, k)
    ensures Denotes(s, r, it', k + 1)
  {
    hide *;
    AtParts(s, r, it, k);
    NodeFields(s, r, it.node);
    it' := it.(position := it.position + 1);
    if it.node.leaf && it'.position < it.node.count {
      IsIter(s, r, it', k + 1);
    } else if it.node.leaf {
      it' := IncrementClimb(it', s, r, k + 1);
    } else {
      it' := IncrementDescend(it, s, r, m, k);
    }
  }

  /** From behind the last value of a leaf up to the next value, or not at all when there is none. */
  method IncrementClimb(it: Iter, ghost s: Store, ghost r: Node, ghost k: nat) returns (it': Iter)
    requires Matches(s) && Linked(s, r, null) && IsGap(s, r, it, k) && it.position == |s[it.node].vals|
    ensures Denotes(s, r, it', k)
  {
    hide *;
    GapParts(s, r, it, k);
    var node, position := it.node, it.position;
    NodeFields(s, r, node);
    Edges(s, r, node);
    RootSpines(s, r);
    while position == node.count && !node.parent.leaf
      invariant Matches(s) && node in s && 0 <= position <= |s[node].vals| && s[node].height <= s[r].height
      invariant node.count == |s[node].vals| && node.parent != null && (node.parent.leaf <==> node == r)
      invariant if position < |s[node].vals| then !node.leaf && Rank(s, r, node, position) == k
                else Off(s, r, node) + |s[node].cont| == k && (s[node].rspine ==> s[it.node].rspine)
      decreases s[r].height - s[node].height
    {
      NodeFields(s, r, node);
      Climb(s, r, node);
      position := node.position;
      node := node.parent;
      NodeFields(s, r, node);
    }
    it' := Iter(node, position);
    if position == node.count {
      it' := it;
      Edges(s, r, r);
      AtEnd(s, r, it', k);
    } else {
      IsIter(s, r, it', k);
    }
  }

  method IncrementDescend(it: Iter, ghost s: Store, ghost r: Node, ghost m: nat, ghost k: nat) returns (it': Iter)
    requires Matches(s) && Linked(s, r, null) && Sized(s, r, m, null) && IsAt(s, r, it, k) && !it.node.leaf
    ensures Denotes(s, r, it', k + 1)
  {
    hide *;
    AtParts(s, r, it, k);
    NodeFields(s, r, it.node);
    Descend(s, r, it.node, it.position + 1);
    var node := it.node.children[it.position + 1];
    Climb(s, r, node);
    while !node.leaf
      invariant Matches(s) && node in s && Off(s, r, node) == k + 1
      decreases s[node].height
    {
      NodeFields(s, r, node);
      Descend(s, r, node, 0);
      node := node.children[0];
      Climb(s, r, node);
    }
    it' := Iter(node, 0);
    NonEmpty(s, r, m, node);
    LeafRank(s, r, node, 0);
    IsIter(s, r, it', k + 1);
  }

  /** Steps back; from the first element the position becomes -1 in place. */
  method Decrement(it: Iter, ghost s: Store, ghost r: Node, ghost m: nat, ghost k: nat) returns (it': Iter)
    requires Matches(s) && Linked(s, r, null) && Sized(s, r, m, null) && Denotes(s, r, it, k)
    ensures if k > 0 then IsAt(s, r, it', k - 1) else it' == Iter(it.node, -1)
  {
    hide *;
    DenotesParts(s, r, it, k);
    NodeFields(s, r, it.node);
    it' := it.(position := it.position - 1);
    if it.node.leaf && it'.position >= 0 {
      IsIter(s, r, it', k - 1);
    } else if it.node.leaf {
      it' := DecrementClimb(it', s, r, m, k);
    } else {
      it' := DecrementDescend(it, s, r, m, k);
    }
  }

  method DecrementClimb(it: Iter, ghost s: Store, ghost r: Node, ghost m: nat, ghost k: nat) returns (it': Iter)
    requires Matches(s) && Linked(s, r, null) && Sized(s, r, m, null) && it.node in s && it.node.leaf
    requires it.position == -1 && Off(s, r, it.node) == k
    ensures if k > 0 then IsAt(s, r, it', k - 1) else it' == it
  {
    hide *;
    var node, position := it.node, it.position;
    NodeFields(s, r, node);
    Edges(s, r, node);
    RootSpines(s, r);
    while position < 0 && !node.parent.leaf
      invariant Matches(s) && node in s && -1 <= position < |s[node].vals| && s[node].height <= s[r].height
      invariant node.parent != null && (node.parent.leaf <==> node == r)
      invariant if position >= 0 then Rank(s, r, node, position) + 1 == k else Off(s, r, node) == k
      decreases s[r].height - s[node].height
    {
      NodeFields(s, r, node);
      Climb(s, r, node);
      position := node.position - 1;
      node := node.parent;
      NodeFields(s, r, node);
      NonEmpty(s, r, m, node);
    }
    it' := Iter(node, position);
    if position < 0 {
      it' := it;
    } else {
      IsIter(s, r, it', k - 1);
    }
  }

  method DecrementDescend(it: Iter, ghost s: Store, ghost r: Node, ghost m: nat, ghost k: nat) returns (it': Iter)
    requires Matches(s) && Linked(s, r, null) && Sized(s, r, m, null) && IsAt(s, r, it, k) && !it.node.leaf
    ensures k > 0 && IsAt(s, r, it', k - 1)
    ensures it'.node.leaf && s[it'.node].height < s[it.node].height
  {
    hide *;
    AtParts(s, r, it, k);
    NodeFields(s, r, it.node);
    Descend(s, r, it.node, it.position);
    var node := it.node.children[it.position];
    Climb(s, r, node);
    while !node.leaf
      invariant Matches(s) && node in s && Off(s, r, node) + |s[node].cont| == k && s[node].height < s[it.node].height
      decreases s[node].height
    {
      NodeFields(s, r, node);
      Descend(s, r, node, node.count);
      node := node.children[node.count];
      Climb(s, r, node);
    }
    NodeFields(s, r, node);
    it' := Iter(node, node.count - 1);
    NonEmpty(s, r, m, node);
    IsIter(s, r, it', k - 1);
  }

  /** From a gap in a leaf to the value behind it, or to null at the very end. */
  method InternalLast(it: Iter, ghost s: Store, ghost r: Node, ghost k: nat) returns (it': Iter)
    requires Matches(s) && Linked(s, r, null) && IsGap(s, r, it, k)
    ensures if it'.node == null then k == |s[r].cont| else IsAt(s, r, it', k)
  {
    hide Matches, Linked, Off, IsAt, IsGap;
    GapParts(s, r, it, k);
    var node, position: int := it.node, it.position;
    NodeFields(s, r, it.node);
    Edges(s, r, it.node);
    RootSpines(s, r);
    if position < node.count {
      IsIter(s, r, it, k);
    }
    while node != null && position == node.count
      invariant Matches(s) && Reaching(s, r, node, position, k)
      invariant (node != null ==> node in s && node.count == |s[node as Node].vals|)
      decreases if node == null || node !in s then -1 else s[r].height - s[node as Node].height
    {
      NodeFields(s, r, node);
      position := node.position;
      if node != r { Climb(s, r, node); }
      node := node.parent;
      if node.leaf {
        node := null;
      } else {
        NodeFields(s, r, node);
        if position < node.count { IsIter(s, r, Iter(node, position), k); }
      }
    }
    it' := Iter(node, position);
  }

  ghost predicate Reaching(s: Store, r: Node, n: Node?, i: int, k: nat) {
    r in s && if n == null then k == |s[r].cont| else
      var node: Node := n;
      && node in s && 0 <= i <= |s[node].vals| && s[node].height <= s[r].height
      && (if i == |s[node].vals| then Off(s, r, node) + |s[node].cont| == k else IsAt(s, r, Iter(node, i), k))
  }

  lemma DenotesParts(s: Store, r: Node, it: Iter, k: nat)
    requires Denotes(s, r, it, k) && Linked(s, r, null)
    ensures it.node in s && 0 <= it.position <= |s[it.node].vals|
    ensures it.node.leaf ==> Off(s, r, it.node) + it.position == k
    ensures !it.node.leaf ==> IsAt(s, r, it, k)
  {
    if k == |s[r].cont| {
      Edges(s, r, it.node);
      LinkedNode(s, r, null, it.node);
    }
  }

  lemma AtParts(s: Store, r: Node, it: Iter, k: int)
    requires IsAt(s, r, it, k)
    ensures it.node in s && r in s && 0 <= it.position < |s[it.node].vals|
    ensures Rank(s, r, it.node, it.position) == k < |s[r].cont|
    ensures it.node.leaf ==>
      Off(s, r, it.node) + it.position == k && IsGap(s, r, it.(position := it.position + 1), k + 1)
  {
  }

  lemma GapParts(s: Store, r: Node, it: Iter, k: int)
    requires IsGap(s, r, it, k)
    ensures it.node in s && it.node.leaf && 0 <= it.position <= |s[it.node].vals|
    ensures Off(s, r, it.node) + it.position == k
  {
  }

  lemma LeafRank(s: Store, r: Node, n: Node, i: nat)
    requires n.leaf
    ensures Rank(s, r, n, i) == Off(s, r, n) + i
  {
  }

  lemma IsIter(s: Store, r: Node, it: Iter, k: int)
    requires Linked(s, r, null) && it.node in s && 0 <= it.position < |s[it.node].vals|
    requires Rank(s, r, it.node, it.position) == k || (it.node.leaf && Off(s, r, it.node) + it.position == k)
    ensures IsAt(s, r, it, k) && Denotes(s, r, it, k)
  {
    RankAt(s, r, it.node, it.position);
  }

  lemma RootSpines(s: Store, r: Node)
    requires Linked(s, r, null)
    ensures r in s && s[r].rspine && s[r].lspine && Off(s, r, r) == 0
  {
    LinkedNode(s, r, null, r);
  }

  lemma AtEnd(s: Store, r: Node, it: Iter, k: int)
    requires r in s && it.node in s && it.node.leaf && s[it.node].rspine && it.position == |s[it.node].vals|
    requires k == |s[r].cont|
    ensures Denotes(s, r, it, k)
  {
  }

  lemma NonEmpty(s: Store, r: Node, m: nat, n: Node)
    requires Sized(s, r, m, null) && n in s
    ensures |s[n].vals| > 0
  {
    SizeAt(s, r, m, null, n);
  }

  // --- searching ---

  ghost predicate Less(x: Entry, key: Key, upper: bool) {
    if upper then x.key <= key else x.key < key
  }

  /** g is where key belongs in the order w: behind all smaller (for upper: no greater) keys and before all others. */
  ghost predicate Cut(w: seq<Entry>, g: int, key: Key, upper: bool) {
    && 0 <= g <= |w|
    && (forall j :: 0 <= j < g ==> Less(w[j], key, upper))
    && (forall j :: g <= j < |w| ==> !Less(w[j], key, upper))
  }

  /** The cut is somewhere in, or at the ends of, what lies below n. */
  ghost predicate Brackets(s: Store, r: Node, n: Node, key: Key, upper: bool) {
    && r in s && n in s && Off(s, r, n) + |s[n].cont| <= |s[r].cont|
    && (Off(s, r, n) > 0 ==> Less(s[r].cont[Off(s, r, n) - 1], key, upper))
    && (Off(s, r, n) + |s[n].cont| < |s[r].cont| ==> !Less(s[r].cont[Off(s, r, n) + |s[n].cont|], key, upper))
  }

  lemma StorageAllocated(s: Store)
    ensures forall o :: o in Arrs(s.Keys) ==> allocated(o)
  {
  }

  ghost predicate HasKey(w: seq<Entry>, key: Key) {
    exists j :: 0 <= j < |w| && w[j].key == key
  }

  lemma CutMeans(w: seq<Entry>, k: nat, key: Key)
    ensures Cut(w, k, key, false) <==>
      k <= |w| && (forall j :: 0 <= j < k ==> w[j].key < key) && forall j :: k <= j < |w| ==> w[j].key >= key
    ensures Cut(w, k, key, true) <==>
      k <= |w| && (forall j :: 0 <= j < k ==> w[j].key <= key) && forall j :: k <= j < |w| ==> w[j].key > key
  {
    forall j, upper: bool | 0 <= j < |w|
      ensures Less(w[j], key, upper) <==> if upper then w[j].key <= key else w[j].key < key
    {
    }
  }

  lemma HasKeyMeans(w: seq<Entry>, key: Key)
    ensures HasKey(w, key) <==> exists j :: 0 <= j < |w| && w[j].key == key
  {
  }

  /** A key is present exactly if it is at its cut. */
  lemma CutHas(w: seq<Entry>, k: nat, key: Key)
    requires Sorted(w) && Cut(w, k, key, false)
    ensures HasKey(w, key) <==> k < |w| && w[k].key == key
    ensures k < |w| ==> w[k].key >= key
  {
    if HasKey(w, key) {
      var j :| 0 <= j < |w| && w[j].key == key;
      assert k <= j && w[k].key <= w[j].key;
    }
  }

  lemma InsertSorted(w: seq<Entry>, k: nat, x: Entry)
    requires Sorted(w) && Cut(w, k, x.key, false) && !HasKey(w, x.key)
    ensures Sorted(Insert(w, k, x)) && Insert(w, k, x)[k] == x
  {
    assert forall j :: k <= j < |w| ==> w[j].key > x.key;
  }

  method LowerBoundIn(n: Node, key: Key) returns (i: nat)
    requires n.count <= n.values.Length
    ensures i <= n.count
    ensures forall j :: 0 <= j < i ==> n.values[j].key < key
    ensures i < n.count ==> n.values[i].key >= key
  {
    i := 0;
    while i < n.count
      invariant i <= n.count
      invariant forall j :: 0 <= j < i ==> n.values[j].key < key
    {
      if !(n.values[i].key < key) {
        break;
      }
      i := i + 1;
    }
  }

  method UpperBoundIn(n: Node, key: Key) returns (i: nat)
    requires n.count <= n.values.Length
    ensures i <= n.count
    ensures forall j :: 0 <= j < i ==> n.values[j].key <= key
    ensures i < n.count ==> n.values[i].key > key
  {
    i := 0;
    while i < n.count
      invariant i <= n.count
      invariant forall j :: 0 <= j < i ==> n.values[j].key <= key
    {
      if key < n.values[i].key {
        break;
      }
      i := i + 1;
    }
  }

  /** i is where key belongs among the values of n itself. */
  ghost predicate CutIn(s: Store, n: Node, i: int, key: Key, upper: bool) {
    && n in s && 0 <= i <= |s[n].vals|
    && (i > 0 ==> Less(s[n].vals[i - 1], key, upper))
    && (i < |s[n].vals| ==> !Less(s[n].vals[i], key, upper))
  }

  lemma BracketsKid(s: Store, r: Node, n: Node, i: nat, key: Key, upper: bool)
    requires Linked(s, r, null) && Brackets(s, r, n, key, upper) && !n.leaf && CutIn(s, n, i, key, upper)
    ensures i < |s[n].kids| && s[n].kids[i] in s && Brackets(s, r, s[n].kids[i], key, upper)
    ensures s[s[n].kids[i]].height < s[n].height
  {
    Descend(s, r, n, i);
    Climb(s, r, s[n].kids[i]);
    hide Rank, Off;
    Edges(s, r, s[n].kids[i]);
    if i > 0 { RankAt(s, r, n, i - 1); }
    if i < |s[n].vals| { RankAt(s, r, n, i); }
  }

  lemma BracketsLeaf(s: Store, r: Node, n: Node, i: nat, key: Key, upper: bool)
    requires Linked(s, r, null) && Sorted(s[r].cont) && Brackets(s, r, n, key, upper) && n.leaf
    requires CutIn(s, n, i, key, upper)
    ensures Cut(s[r].cont, Off(s, r, n) + i, key, upper)
  {
    LinkedNode(s, r, null, n);
    var w, o := s[r].cont, Off(s, r, n);
    if i > 0 { RankAt(s, r, n, i - 1); }
    if i < |s[n].vals| { RankAt(s, r, n, i); }
    hide Linked, Off;
    assert o + i > 0 ==> Less(w[o + i - 1], key, upper);
    assert o + i < |w| ==> !Less(w[o + i], key, upper);
    CutFrom(w, o + i, key, upper);
  }

  lemma CutFrom(w: seq<Entry>, g: nat, key: Key, upper: bool)
    requires Sorted(w) && g <= |w| && (g > 0 ==> Less(w[g - 1], key, upper)) && (g < |w| ==> !Less(w[g], key, upper))
    ensures Cut(w, g, key, upper)
  {
    forall j | 0 <= j < g
      ensures Less(w[j], key, upper)
    {
      assert w[j].key <= w[g - 1].key;
    }
    forall j | g <= j < |w|
      ensures !Less(w[j], key, upper)
    {
      assert w[g].key <= w[j].key;
    }
  }

  lemma BracketsRoot(s: Store, r: Node, key: Key, upper: bool)
    requires r in s
    ensures Brackets(s, r, r, key, upper)
  {
  }

  lemma CutInNode(s: Store, r: Node, n: Node, i: nat, key: Key, upper: bool)
    requires Matches(s) && Linked(s, r, null) && n in s && i <= n.count <= n.values.Length
    requires forall j :: 0 <= j < i ==> Less(n.values[j], key, upper)
    requires i < n.count ==> !Less(n.values[i], key, upper)
    ensures CutIn(s, n, i, key, upper)
  {
    NodeFields(s, r, n);
  }

  /** Descends to the gap in front of the first key not less than key. */
  method InternalLocate(root: Node, key: Key, ghost s: Store) returns (it: Iter, ghost k: nat)
    requires Matches(s) && Linked(s, root, null) && Sorted(s[root].cont)
    ensures IsGap(s, root, it, k) && Cut(s[root].cont, k, key, false)
  {
    hide *;
    RootSpines(s, root);
    BracketsRoot(s, root, key, false);
    StorageAllocated(s);
    var node: Node, position := root, 0;
    while true
      invariant Matches(s) && Brackets(s, root, node, key, false) && node in s
      decreases s[node].height
    {
      NodeFields(s, root, node);
      position := LowerBoundIn(node, key);
      BelowKey(node, position, key);
      CutInNode(s, root, node, position, key, false);
      if node.leaf {
        break;
      }
      BracketsKid(s, root, node, position, key, false);
      node := node.children[position];
    }
    it := Iter(node, position);
    BracketsLeaf(s, root, node, position, key, false);
    k := Off(s, root, node) + position;
    CutInParts(s, node, position, key, false);
    IsGapHere(s, root, it);
  }

  /** Descends to the gap in front of the first key greater than key. */
  method LocateUpper(root: Node, key: Key, ghost s: Store) returns (it: Iter, ghost k: nat)
    requires Matches(s) && Linked(s, root, null) && Sorted(s[root].cont)
    ensures IsGap(s, root, it, k) && Cut(s[root].cont, k, key, true)
  {
    hide *;
    RootSpines(s, root);
    BracketsRoot(s, root, key, true);
    StorageAllocated(s);
    var node: Node, position := root, 0;
    while true
      invariant Matches(s) && Brackets(s, root, node, key, true) && node in s
      decreases s[node].height
    {
      NodeFields(s, root, node);
      position := UpperBoundIn(node, key);
      AboveKey(node, position, key);
      CutInNode(s, root, node, position, key, true);
      if node.leaf {
        break;
      }
      BracketsKid(s, root, node, position, key, true);
      node := node.children[position];
    }
    it := Iter(node, position);
    BracketsLeaf(s, root, node, position, key, true);
    k := Off(s, root, node) + position;
    CutInParts(s, node, position, key, true);
    IsGapHere(s, root, it);
  }

  lemma AboveKey(n: Node, i: nat, key: Key)
    requires i <= n.count <= n.values.Length
    requires forall j :: 0 <= j < i ==> n.values[j].key <= key
    requires i < n.count ==> n.values[i].key > key
    ensures forall j :: 0 <= j < i ==> Less(n.values[j], key, true)
    ensures i < n.count ==> !Less(n.values[i], key, true)
  {
  }

  lemma CutInParts(s: Store, n: Node, i: int, key: Key, upper: bool)
    requires CutIn(s, n, i, key, upper)
    ensures n in s && 0 <= i <= |s[n].vals|
  {
  }

  lemma IsGapHere(s: Store, r: Node, it: Iter)
    requires it.node in s && it.node.leaf && 0 <= it.position <= |s[it.node].vals|
    ensures IsGap(s, r, it, Off(s, r, it.node) + it.position)
  {
  }

  lemma BelowKey(n: Node, i: nat, key: Key)
    requires i <= n.count <= n.values.Length
    requires forall j :: 0 <= j < i ==> n.values[j].key < key
    requires i < n.count ==> n.values[i].key >= key
    ensures forall j :: 0 <= j < i ==> Less(n.values[j], key, false)
    ensures i < n.count ==> !Less(n.values[i], key, false)
  {
  }

  lemma {:induction false} BeforeGrows(v: seq<Entry>, ks: seq<seq<Entry>>, i: nat, j: nat)
    requires i < j <= |v| && j <= |ks|
    ensures |Before(v, ks, i)| + |ks[i]| < |Before(v, ks, j)|
  {
    if i + 1 < j {
      BeforeGrows(v, ks, i, j - 1);
    }
  }

  lemma RankWithin(s: Store, r: Node, n: Node, i: nat)
    requires Linked(s, r, null) && n in s && i < |s[n].vals|
    ensures Off(s, r, n) <= Rank(s, r, n, i) < Off(s, r, n) + |s[n].cont|
  {
    LinkedNode(s, r, null, n);
    if !n.leaf {
      hide Linked, Off;
      WeaveAround(s[n].vals, Conts(s, s[n].kids), i + 1);
    }
  }

  lemma RankGrows(s: Store, r: Node, n: Node, i: nat, j: nat)
    requires Linked(s, r, null) && n in s && i < j < |s[n].vals|
    ensures Rank(s, r, n, i) < Rank(s, r, n, j)
  {
    LinkedNode(s, r, null, n);
    if !n.leaf {
      hide Linked, Off;
      BeforeGrows(s[n].vals, Conts(s, s[n].kids), i, j);
    }
  }

  // --- what the tree's own check looks at ---

  /** lo and hi, where given, are the keys next to what lies below n. */
  ghost predicate Between(s: Store, r: Node, n: Node, lo: Bound, hi: Bound) {
    && r in s && n in s && Off(s, r, n) + |s[n].cont| <= |s[r].cont|
    && (lo.At? ==> Off(s, r, n) > 0 && s[r].cont[Off(s, r, n) - 1].key == lo.key)
    && (hi.At? ==> Off(s, r, n) + |s[n].cont| < |s[r].cont| && s[r].cont[Off(s, r, n) + |s[n].cont|].key == hi.key)
  }

  datatype Bound = Open | At(key: Key)

  /** The bounds of a child are the values on either side of it, and its parent's bounds at the ends. */
  lemma BetweenKid(s: Store, r: Node, n: Node, i: nat, lo: Bound, hi: Bound)
    requires Linked(s, r, null) && Between(s, r, n, lo, hi) && !n.leaf && i <= |s[n].vals|
    ensures i < |s[n].kids| && s[n].kids[i] in s && s[s[n].kids[i]].height < s[n].height
    ensures Between(s, r, s[n].kids[i], if i == 0 then lo else At(s[n].vals[i - 1].key), if i == |s[n].vals| then hi
      else At(s[n].vals[i].key))
  {
    Descend(s, r, n, i);
    Climb(s, r, s[n].kids[i]);
    Edges(s, r, s[n].kids[i]);
    hide Rank, Off;
    if i > 0 { RankAt(s, r, n, i - 1); }
    if i < |s[n].vals| { RankAt(s, r, n, i); }
  }

  /** A node's keys ascend and lie strictly between its bounds. */
  lemma KeysBetween(s: Store, r: Node, n: Node, lo: Bound, hi: Bound)
    requires Linked(s, r, null) && Sorted(s[r].cont) && Between(s, r, n, lo, hi)
    ensures forall i :: 0 <= i < |s[n].vals| ==>
      (lo.At? ==> lo.key < s[n].vals[i].key) && (hi.At? ==> s[n].vals[i].key < hi.key)
    ensures forall i, j :: 0 <= i < j < |s[n].vals| ==> s[n].vals[i].key < s[n].vals[j].key
  {
    forall i | 0 <= i < |s[n].vals|
      ensures (lo.At? ==> lo.key < s[n].vals[i].key) && (hi.At? ==> s[n].vals[i].key < hi.key)
    {
      RankAt(s, r, n, i);
      RankWithin(s, r, n, i);
    }
    forall i, j | 0 <= i < j < |s[n].vals|
      ensures s[n].vals[i].key < s[n].vals[j].key
    {
      RankAt(s, r, n, i);
      RankAt(s, r, n, j);
      RankGrows(s, r, n, i, j);
    }
  }

  /** How much lies below the first i children. */
  lemma CountStep(s: Store, r: Node, n: Node, i: nat)
    requires Linked(s, r, null) && n in s && !n.leaf && i <= |s[n].vals|
    ensures |s[n].kids| == |s[n].vals| + 1 && s[n].kids[i] in s
    ensures i < |s[n].vals| ==>
      |Before(s[n].vals, Conts(s, s[n].kids), i + 1)| == |Before(s[n].vals, Conts(s, s[n].kids), i)|
      + |s[s[n].kids[i]].cont| + 1
    ensures i == |s[n].vals| ==> |s[n].cont| == |Before(s[n].vals, Conts(s, s[n].kids), i)| + |s[s[n].kids[i]].cont|
  {
    LinkedNode(s, r, null, n);
    assert KidOk(s, r, n, s[n].kids[i], i);
  }
}
