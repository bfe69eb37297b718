/** In-place changes to one leaf, and to the root when the tree grows or shrinks, as steps between stores. */
module RootSurgery {
  import opened Entries
  import opened Weaving
  import opened Trees
  import opened Levels
  import opened Mending
  import opened Surgery

  /** Recorded content is not on the heap. */
  lemma MatchesCont(s: Store, s': Store)
    requires Matches(s) && s'.Keys == s.Keys && forall x :: x in s ==> OnlyCont(s'[x], s[x])
    ensures Matches(s')
  {
    forall x | x in s'
      ensures Fits(x, s'[x])
    {
      MatchesAt(s, x);
      assert OnlyCont(s'[x], s[x]);
      SameFits(x, s[x], s'[x]);
    }
    assert Apart(s'.Keys);
    MatchesAll(s');
  }

  ghost function PutVals(s: Store, n: Node, vals: seq<Entry>): Store
    requires n in s
  {
    s[n := s[n].(vals := vals)]
  }

  lemma OthersFit(s: Store, n: Node)
    requires Matches(s) && n in s
    ensures Fits(n, s[n]) && Apart(s.Keys)
    ensures forall y :: y in s && y != n ==> Fits(y, s[y]) && y.values != n.values && y.children != n.children
  {
    hide Fits;
  }

  /** A leaf with new values, all other nodes as they were. */
  lemma PutFits(s: Store, n: Node, vals: seq<Entry>)
    requires n in s && Apart(s.Keys) && (forall y :: y in s && y != n ==> Fits(y, s[y])) && s[n].kids == [] && Built(n)
    requires n.count == |vals| <= n.maxCount && n.values[..n.count] == vals
    requires n.parent == s[n].parent && n.position == s[n].position
    ensures Matches(PutVals(s, n, vals))
  {
    hide Apart;
    assert Fits(n, s[n].(vals := vals));
    hide Fits;
    assert PutVals(s, n, vals).Keys == s.Keys;
    MatchesAll(PutVals(s, n, vals));
  }

  method InsertLeafValue(n: Node, i: nat, x: Entry, ghost s: Store)
    requires Matches(s) && n in s && n.leaf && i <= |s[n].vals| < n.maxCount && s[n].kids == []
    modifies n`count, n.values, n.children
    ensures Matches(PutVals(s, n, Insert(s[n].vals, i, x)))
  {
    hide *;
    OthersFit(s, n);
    FitsParts(n, s[n]);
    n.InsertValue(i, x, []);
    PutFits(s, n, Insert(s[n].vals, i, x));
  }

  method RemoveLeafValue(n: Node, i: nat, ghost s: Store)
    requires Matches(s) && n in s && n.leaf && i < |s[n].vals| && s[n].kids == []
    modifies n`count, n.values, n.children
    ensures Matches(PutVals(s, n, Remove(s[n].vals, i)))
  {
    hide *;
    OthersFit(s, n);
    FitsParts(n, s[n]);
    n.RemoveValue(i, []);
    PutFits(s, n, Remove(s[n].vals, i));
  }

  ghost function SwapVals(s: Store, n: Node, i: nat, m: Node, j: nat): Store
    requires n in s && m in s && i < |s[n].vals| && j < |s[m].vals|
  {
    PutVals(PutVals(s, n, s[n].vals[i := s[m].vals[j]]), m, s[m].vals[j := s[n].vals[i]])
  }

  /** Swaps value i of the node n with value j of the node m. */
  method SwapNodeValues(n: Node, i: nat, m: Node, j: nat, ghost s: Store)
    requires Matches(s) && n in s && m in s && n != m && i < |s[n].vals| && j < |s[m].vals|
    modifies n.values, m.values
    ensures Matches(SwapVals(s, n, i, m, j))
  {
    hide *;
    OthersFit(s, n);
    OthersFit(s, m);
    FitsParts(n, s[n]);
    FitsParts(m, s[m]);
    ghost var a, b := n.values[..], m.values[..];
    TakeUpdate(a, |s[n].vals|, i, m.values[j]);
    TakeUpdate(b, |s[m].vals|, j, n.values[i]);
    n.values[i], m.values[j] := m.values[j], n.values[i];
    assert n.values[..] == a[i := b[j]] && m.values[..] == b[j := a[i]];
    SwapFits(s, n, i, m, j);
  }

  lemma TakeUpdate(s: seq<Entry>, n: nat, i: nat, x: Entry)
    requires i < n <= |s|
    ensures s[i := x][..n] == s[..n][i := x]
  {
  }

  lemma SwapFits(s: Store, n: Node, i: nat, m: Node, j: nat)
    requires n in s && m in s && n != m && i < |s[n].vals| && j < |s[m].vals| && Apart(s.Keys)
    requires forall y :: y in s && y != n && y != m ==> Fits(y, s[y])
    requires Built(n) && n.count == |s[n].vals| <= n.maxCount && n.parent == s[n].parent && n.position == s[n].position
    requires Built(m) && m.count == |s[m].vals| <= m.maxCount && m.parent == s[m].parent && m.position == s[m].position
    requires |s[n].kids| <= n.children.Length && n.children[..|s[n].kids|] == s[n].kids
    requires |s[m].kids| <= m.children.Length && m.children[..|s[m].kids|] == s[m].kids
    requires n.values[..n.count] == s[n].vals[i := s[m].vals[j]] && m.values[..m.count] == s[m].vals[j := s[n].vals[i]]
    ensures Matches(SwapVals(s, n, i, m, j))
  {
    hide Apart;
    var s' := SwapVals(s, n, i, m, j);
    assert Fits(n, s'[n]) && Fits(m, s'[m]);
    hide Fits;
    assert s'.Keys == s.Keys;
    MatchesAll(s');
  }

  // --- the root ---

  /** The old leaf root r is replaced by the larger leaf n holding the same values. */
  ghost function GrowRoot(s: Store, r: Node, n: Node): Store
    requires r in s
  {
    map[n := s[r].(parent := n, position := 0)]
  }

  method GrowLeafRoot(r: Node, maxCount: nat, ghost s: Store) returns (n: Node)
    requires Matches(s) && r in s && r.leaf && |s[r].vals| <= maxCount && s[r].kids == []
    modifies r`count, r.values, r.children
    ensures fresh(n) && fresh(n.values) && fresh(n.children) && n.leaf && n.maxCount == maxCount
    ensures Matches(GrowRoot(s, r, n)) && n !in s
  {
    MatchesAt(s, r);
    n := new Node(true, maxCount, null);
    n.parent := n;
    n.Swap(r, [], []);
  }

  /** Puts a new internal root above the leaf root r. */
  method NewInternalRoot(r: Node, m: nat, ghost s: Store) returns (n: Node)
    requires Matches(s) && r in s && r.leaf && s[r].parent == r && s[r].kids == []
    modifies r`parent, r`position
    ensures fresh(n) && fresh(n.values) && fresh(n.children) && !n.leaf && n.maxCount == m && n !in s
    ensures n.rightmost == r && n.size == old(r.count)
    ensures Matches(NewRoot(s, r, n))
  {
    MatchesAt(s, r);
    n := new Node(false, m, r.parent);
    n.rightmost := r.parent;
    n.size := r.parent.count;
    n.SetChild(0, r);
  }

  /** Two internal nodes, one of them the child [p] of an empty one, have exchanged contents: ks are the children handed
      over. */
  method SwapDown(p: Node, r: Node, ghost c: Rec, ghost s: Store)
    requires Fits(r, c) && !r.leaf && !p.leaf && p != r && Apart(s.Keys + {p}) && r in s && p !in s
    requires Built(p) && p.count == 0 && p.maxCount == r.maxCount && p.children[..1] == [p] && p.position == 0
    requires |c.kids| == |c.vals| + 1 && (forall y :: y in c.kids ==> y in s && y != r)
    requires forall y :: y in s ==> Holds(y, s[y])
    modifies (s.Keys + {p})`parent, (s.Keys + {p})`position, (s.Keys + {p})`count, Arrs(s.Keys + {p})
    ensures Fits(p, c.(parent := r, position := 0)) && Fits(r, c.(vals := [], kids := [p]))
    ensures forall y :: y in s && y != r ==> Holds(y, s[y])
    ensures forall y :: y in s ==> y.position == old(y.position)
    ensures forall y :: y in s && y !in c.kids ==> y.parent == old(y.parent)
    ensures forall y :: y in c.kids ==> y.parent == p
  {
    p.Swap(r, [p], c.kids);
    assert p.parent == [p][0].parent == r;
  }

  method SwapUp(p: Node, r: Node, ghost c: Rec, ghost rc: Rec, ghost s: Store)
    requires Fits(p, c) && Fits(r, rc) && !r.leaf && !p.leaf && p != r && Apart(s.Keys) && r in s && p in s
    requires p.maxCount == r.maxCount && rc.vals == [] && rc.kids == [p]
    requires |c.kids| == |c.vals| + 1 && (forall y :: y in c.kids ==> y in s && y != r && y != p)
    requires forall y :: y in s ==> Holds(y, s[y])
    modifies s.Keys`parent, s.Keys`position, s.Keys`count, Arrs(s.Keys)
    ensures Fits(r, rc.(vals := c.vals, kids := c.kids))
    ensures forall y :: y in s && y != r && y != p ==> Holds(y, s[y])
    ensures forall y :: y in s ==> y.position == old(y.position)
    ensures forall y :: y in s && y !in c.kids && y != p ==> y.parent == old(y.parent)
    ensures forall y :: y in c.kids ==> y.parent == r
  {
    p.Swap(r, c.kids, [p]);
    assert [p][0] == p;
  }

  lemma AddLevelMatches(s: Store, r: Node, p: Node)
    requires CanAddLevel(s, r, p) && Apart(s.Keys + {p})
    requires Fits(p, s[r].(parent := r, position := 0)) && Fits(r, s[r].(vals := [], kids := [p]))
    requires forall y :: y in s && y != r ==> Holds(y, s[y])
    requires forall y :: y in s ==> y.position == s[y].position
    requires forall y :: y in s && y !in s[r].kids ==> y.parent == s[y].parent
    requires forall y :: y in s[r].kids ==> y.parent == p
    ensures Matches(AddLevel(s, r, p))
  {
    AddLevelIs(s, r, p);
    LinkedParts(s, r, r);
    hide CanAddLevel, AddLevel, Linked, NodeOk, DownOk, UpOk, Apart;
    var s' := AddLevel(s, r, p);
    SameFits(p, s[r].(parent := r, position := 0), s'[p]);
    SameFits(r, s[r].(vals := [], kids := [p]), s'[r]);
    forall y | y in s && y != r
      ensures Fits(y, s'[y])
    {
      LinkedParts(s, r, y);
      WhoseKid(s, r, r, y);
    }
    MatchesAll(s');
  }

  lemma AddLevelIs(s: Store, r: Node, p: Node)
    requires CanAddLevel(s, r, p)
    ensures Linked(s, r, null) && r in s && p !in s
    ensures
      var s' := AddLevel(s, r, p);
      && s'.Keys == s.Keys + {p} && SameHeap(s'[p], s[r].(parent := r, position := 0))
      && SameHeap(s'[r], s[r].(vals := [], kids := [p]))
      && forall y :: y in s && y != r ==> s'[y] == if s[y].parent == r then s[y].(parent := p) else s[y]
  {
    hide NodeOk;
  }

  method NewLoop(r: Node, ghost s: Store) returns (p: Node)
    requires Apart(s.Keys)
    ensures fresh(p) && fresh(p.values) && fresh(p.children) && !p.leaf && p.maxCount == r.maxCount && Built(p)
    ensures p.count == 0 && p.position == 0 && p.children[..1] == [p] && p !in s && Apart(s.Keys + {p})
  {
    p := new Node(false, r.maxCount, r.parent);
    p.SetChild(0, p);
  }

  lemma RootFacts(s: Store, r: Node)
    requires Matches(s) && r in s && Linked(s, r, null)
    ensures NodeOk(s, r, null, r) && Fits(r, s[r]) && Apart(s.Keys)
    ensures forall y :: y in s ==> y.parent == s[y].parent && y.position == s[y].position && Holds(y, s[y])
    ensures forall y :: y in s[r].kids ==> y in s && y != r
  {
    LinkedNode(s, r, null, r);
    KidsLower(s, r, r);
    forall y | y in s
      ensures y.parent == s[y].parent && y.position == s[y].position && Holds(y, s[y])
    {
      MatchesAt(s, y);
    }
    MatchesAt(s, r);
  }

  /** The full internal root r hands everything to a new node p, which becomes its only child. */
  method AddRootLevel(r: Node, ghost s: Store) returns (p: Node)
    requires Matches(s) && r in s && !r.leaf && Linked(s, r, null)
    modifies s.Keys`parent, s.Keys`position, s.Keys`count, Arrs(s.Keys)
    ensures fresh(p) && fresh(p.values) && fresh(p.children) && !p.leaf && p.maxCount == r.maxCount && p !in s
    ensures Matches(AddLevel(s, r, p))
  {
    RootFacts(s, r);
    assert |s[r].kids| == |s[r].vals| + 1;
    hide Matches, Linked, Holds, Fits, NodeOk;
    p := NewLoop(r, s);
    SwapDown(p, r, s[r], s);
    AddLevelMatches(s, r, p);
  }

  lemma DropLevelMatches(s: Store, r: Node, p: Node)
    requires CanDropLevel(s, r, p) && Apart(s.Keys) && p != r
    requires Fits(r, s[r].(vals := s[p].vals, kids := s[p].kids))
    requires forall y :: y in s && y != r && y != p ==> Holds(y, s[y])
    requires forall y :: y in s ==> y.position == s[y].position
    requires forall y :: y in s && y !in s[p].kids && y != p ==> y.parent == s[y].parent
    requires forall y :: y in s[p].kids ==> y.parent == r
    ensures Matches(DropLevel(s, r, p))
  {
    var s' := DropLevel(s, r, p);
    assert KidOk(s, r, r, p, 0);
    SameFits(r, s[r].(vals := s[p].vals, kids := s[p].kids), s'[r]);
    forall y | y in s && y != r && y != p
      ensures Fits(y, s'[y])
    {
      LinkedNode(s, r, null, y);
      WhoseKid(s, r, p, y);
    }
    assert Apart(s'.Keys);
    MatchesAll(s');
  }

  /** The empty internal root r takes everything from its only child p. */
  method DropRootLevel(p: Node, r: Node, ghost s: Store)
    requires Matches(s) && r in s && CanDropLevel(s, r, p) && s[r].vals == [] && p.maxCount == r.maxCount && !r.leaf
    modifies s.Keys`parent, s.Keys`position, s.Keys`count, Arrs(s.Keys)
    ensures Matches(DropLevel(s, r, p))
  {
    RootFacts(s, r);
    MatchesAt(s, p);
    KidsLower(s, r, p);
    assert KidOk(s, r, r, p, 0);
    WhoseKid(s, r, p, r);
    assert |s[p].kids| == |s[p].vals| + 1;
    hide Matches, Linked, Holds, Fits, NodeOk, CanDropLevel;
    SwapUp(p, r, s[p], s[r], s);
    DropLevelMatches(s, r, p);
  }

  /** The root's last child, a leaf, stands alone. */
  ghost function LeafAlone(s: Store, c: Node): Store
    requires c in s
  {
    map[c := s[c].(parent := c, position := 0)]
  }

  /** The leaf c, only child of the root, becomes the root itself. */
  method StandAlone(c: Node, ghost s: Store)
    requires Matches(s) && c in s && s[c].parent != null && s[c].parent in s && s[s[c].parent].parent == c
    requires s[c].position == 0 && s[c].kids == []
    modifies c`parent
    ensures Matches(LeafAlone(s, c))
  {
    MatchesAt(s, c);
    MatchesAt(s, s[c].parent);
    c.parent := c.parent.parent;
  }
}
