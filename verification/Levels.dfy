/** Growing and shrinking the tree at its root. */
module Levels {
  import opened Entries
  import opened Weaving
  import opened Trees
  import opened Ranks

  ghost predicate CanAddLevel(s: Store, r: Node, p: Node) {
    && Linked(s, r, null) && NodeOk(s, r, null, r) && !r.leaf && p !in s && !p.leaf
  }

  lemma AddLevelNode(s: Store, r: Node, p: Node, x: Node)
    requires CanAddLevel(s, r, p) && x in s && x != r
    ensures NodeOk(AddLevel(s, r, p), r, null, x)
  {
    LinkedNode(s, r, null, x);
    var s' := AddLevel(s, r, p);
    forall i | 0 <= i < |s[x].kids|
      ensures KidOk(s', r, x, s[x].kids[i], i) && Conts(s', s[x].kids)[i] == Conts(s, s[x].kids)[i]
    {
      assert KidOk(s, r, x, s[x].kids[i], i);
    }
    FlatSame(s, s', s[x].vals, s[x].kids, x.leaf);
  }

  lemma AddLevelTop(s: Store, r: Node, p: Node)
    requires CanAddLevel(s, r, p)
    ensures NodeOk(AddLevel(s, r, p), r, null, p) && NodeOk(AddLevel(s, r, p), r, null, r)
  {
    var s' := AddLevel(s, r, p);
    forall i | 0 <= i < |s[r].kids|
      ensures KidOk(s', r, p, s[r].kids[i], i) && Conts(s', s[r].kids)[i] == Conts(s, s[r].kids)[i]
    {
      assert KidOk(s, r, r, s[r].kids[i], i);
    }
    FlatSame(s, s', s[r].vals, s[r].kids, p.leaf);
    assert Conts(s', [p]) == [s[r].cont];
  }

  lemma AddLevelLinked(s: Store, r: Node, p: Node)
    requires CanAddLevel(s, r, p)
    ensures Linked(AddLevel(s, r, p), r, null)
  {
    var s' := AddLevel(s, r, p);
    assert s[s[r].parent].lspine && s[r].parent in s' && s'[s[r].parent].lspine;
    hide NodeOk;
    forall x | x in s'
      ensures NodeOk(s', r, null, x)
    {
      if x == p || x == r {
        AddLevelTop(s, r, p);
      } else {
        AddLevelNode(s, r, p, x);
      }
    }
  }

  lemma {:induction false} AddLevelOff(s: Store, r: Node, p: Node, x: Node)
    requires CanAddLevel(s, r, p) && x in s
    ensures Off(AddLevel(s, r, p), r, x) == Off(s, r, x)
    decreases s[r].height - s[x].height
  {
    var s' := AddLevel(s, r, p);
    if x != r {
      LinkedNode(s, r, null, x);
      UpFromNode(s, r, null, x);
      var y := s[x].parent;
      LinkedNode(s, r, null, y);
      AddLevelLinked(s, r, p);
      UpFromNode(s', r, null, x);
      UpFromNode(s', r, null, p);
      AddLevelOff(s, r, p, y);
      forall i | 0 <= i < |s[y].kids|
        ensures Conts(s', s[y].kids)[i] == Conts(s, s[y].kids)[i]
      {
        assert KidOk(s, r, y, s[y].kids[i], i);
      }
      assert Conts(s', s[y].kids) == Conts(s, s[y].kids);
    }
  }

  ghost predicate CanDropLevel(s: Store, r: Node, p: Node) {
    && Linked(s, r, null) && NodeOk(s, r, null, r) && p in s && NodeOk(s, r, null, p) && !p.leaf && s[r].kids == [p]
  }

  lemma DropContent(s: Store, r: Node, p: Node)
    requires CanDropLevel(s, r, p)
    ensures s[r].cont == s[p].cont && s[r].vals == [] && UpOk(s, r, p) && UpOk(s, r, r) && !r.leaf
  {
    assert Conts(s, [p]) == [s[p].cont];
  }

  lemma DropThenAddAt(s: Store, r: Node, p: Node, x: Node)
    requires CanDropLevel(s, r, p) && x in s
    ensures r in DropLevel(s, r, p) && x in AddLevel(DropLevel(s, r, p), r, p)
    ensures AddLevel(DropLevel(s, r, p), r, p)[x] == s[x]
  {
    KidIs(s, r, p);
    DropContent(s, r, p);
    LinkedNode(s, r, null, x);
    hide Linked, DownOk, ContOk;
  }

  lemma DropThenAdd(s: Store, r: Node, p: Node)
    requires CanDropLevel(s, r, p)
    ensures r in DropLevel(s, r, p) && AddLevel(DropLevel(s, r, p), r, p) == s
  {
    KidIs(s, r, p);
    var t := AddLevel(DropLevel(s, r, p), r, p);
    assert t.Keys == s.Keys;
    hide AddLevel, DropLevel, CanDropLevel;
    forall x | x in s
      ensures t[x] == s[x]
    {
      DropThenAddAt(s, r, p, x);
    }
  }

  lemma DropLevelUp(s: Store, r: Node, p: Node, x: Node)
    requires CanDropLevel(s, r, p) && x in s && x != r && x != p
    ensures
      var s' := DropLevel(s, r, p);
      r in s' && x in s' && UpOk(s', r, x)
  {
    LinkedNode(s, r, null, x);
    hide Linked, ContOk, DownOk;
    KidIs(s, r, p);
    if s[x].parent == p {
      assert DropLevel(s, r, p)[r].kids == s[p].kids;
    }
  }

  lemma KidIs(s: Store, r: Node, p: Node)
    requires CanDropLevel(s, r, p)
    ensures p != r && s[p].parent == r && s[p].position == 0 && s[p].height + 1 == s[r].height
  {
    assert KidOk(s, r, r, p, 0);
  }

  lemma DropLevelDown(s: Store, r: Node, p: Node, x: Node)
    requires CanDropLevel(s, r, p) && x in s && x != r && x != p
    ensures
      var s' := DropLevel(s, r, p);
      r in s' && x in s' && DownOk(s', r, x) && ContOk(s', x)
  {
    LinkedNode(s, r, null, x);
    assert KidOk(s, r, r, p, 0);
    assert s[x].height <= s[p].height by { LinkedNode(s, r, null, s[x].parent); }
    hide Linked, UpOk;
    var s' := DropLevel(s, r, p);
    forall i | 0 <= i < |s[x].kids|
      ensures KidOk(s', r, x, s[x].kids[i], i) && Conts(s', s[x].kids)[i] == Conts(s, s[x].kids)[i]
    {
      assert KidOk(s, r, x, s[x].kids[i], i);
    }
    FlatSame(s, s', s[x].vals, s[x].kids, x.leaf);
  }

  lemma DropLevelNode(s: Store, r: Node, p: Node, x: Node)
    requires CanDropLevel(s, r, p) && x in s && x != r && x != p
    ensures x in DropLevel(s, r, p) && r in DropLevel(s, r, p) && NodeOk(DropLevel(s, r, p), r, null, x)
  {
    hide CanDropLevel, DropLevel, UpOk, DownOk, ContOk;
    DropLevelUp(s, r, p, x);
    DropLevelDown(s, r, p, x);
  }

  lemma DropLevelTop(s: Store, r: Node, p: Node)
    requires CanDropLevel(s, r, p)
    ensures NodeOk(DropLevel(s, r, p), r, null, r)
  {
    assert KidOk(s, r, r, p, 0);
    var s' := DropLevel(s, r, p);
    assert s[r].cont == s[p].cont by { assert Conts(s, [p]) == [s[p].cont]; }
    forall i | 0 <= i < |s[p].kids|
      ensures KidOk(s', r, r, s[p].kids[i], i) && Conts(s', s[p].kids)[i] == Conts(s, s[p].kids)[i]
    {
      assert KidOk(s, r, p, s[p].kids[i], i);
    }
    FlatSame(s, s', s[p].vals, s[p].kids, r.leaf);
  }

  lemma DropLevelLinked(s: Store, r: Node, p: Node)
    requires CanDropLevel(s, r, p)
    ensures Linked(DropLevel(s, r, p), r, null) && DropLevel(s, r, p)[r].cont == s[r].cont
  {
    assert r in s && p in s;
    hide *;
    DropLevelRoot(s, r, p);
    var s' := DropLevel(s, r, p);
    forall x | x in s'
      ensures NodeOk(s', r, null, x)
    {
      if x == r {
        DropLevelTop(s, r, p);
      } else {
        DropLevelNode(s, r, p, x);
      }
    }
    IsLinked(s', r);
  }

  lemma DropLevelRoot(s: Store, r: Node, p: Node)
    requires CanDropLevel(s, r, p)
    ensures
      var s' := DropLevel(s, r, p);
      && r in s' && s'.Keys == s.Keys - {p} && s'[r].cont == s[r].cont
      && s'[r].parent in s' && s'[r].parent.leaf && s'[s'[r].parent].lspine
  {
    LinkedFirst(s, r, null);
    assert KidOk(s, r, r, p, 0);
    hide NodeOk;
  }

  lemma DropLevelOff(s: Store, r: Node, p: Node, x: Node)
    requires CanDropLevel(s, r, p) && x in s && x != p
    ensures x in DropLevel(s, r, p) && Off(DropLevel(s, r, p), r, x) == Off(s, r, x)
  {
    assert KidOk(s, r, r, p, 0);
    DropThenAdd(s, r, p);
    DropLevelLinked(s, r, p);
    LinkedNode(DropLevel(s, r, p), r, null, r);
    AddLevelOff(DropLevel(s, r, p), r, p, x);
  }

  // --- a leaf at the root ---

  lemma LeafRootAlone(s: Store, r: Node, n: Node)
    requires Linked(s, r, null) && n in s && s[n].height == s[r].height
    ensures n == r
  {
    if n != r {
      UpFromNode(s, r, null, n);
    }
  }

  lemma LeafRootOnly(s: Store, r: Node)
    requires Linked(s, r, null) && r.leaf
    ensures s.Keys == {r} && s[r].parent == r && s[r].cont == s[r].vals
  {
    LinkedNode(s, r, null, r);
    forall n | n in s
      ensures n == r
    {
      LinkedNode(s, r, null, n);
      LeafRootAlone(s, r, n);
    }
  }

  lemma NewRootLinked(s: Store, r: Node, n: Node)
    requires Linked(s, r, null) && r.leaf && !n.leaf
    ensures Linked(NewRoot(s, r, n), n, null) && NewRoot(s, r, n)[n].cont == s[r].cont
    ensures Off(NewRoot(s, r, n), n, r) == 0
  {
    LeafRootOnly(s, r);
    LinkedNode(s, r, null, r);
    var s' := NewRoot(s, r, n);
    assert Conts(s', [r]) == [s[r].cont];
    assert KidOk(s', n, n, r, 0);
    assert NodeOk(s', n, null, n) && NodeOk(s', n, null, r);
    assert Before(s'[n].vals, Conts(s', s'[n].kids), 0) == [];
  }

  /** A leaf that is the only child of an empty root is, with the root, the whole tree. */
  lemma LastLeafOnly(s: Store, r: Node, c: Node)
    requires Linked(s, r, null) && c in s && c.leaf && s[r].kids == [c]
    ensures s.Keys == {r, c} && s[r].parent == c && s[r].cont == s[c].vals && s[c].position == 0 && s[c].parent == r
    ensures Off(s, r, c) == 0 && s[r].vals == []
  {
    LinkedNode(s, r, null, r);
    LinkedNode(s, r, null, c);
    assert KidOk(s, r, r, c, 0);
    forall n | n in s && n != r
      ensures n == c
    {
      LinkedNode(s, r, null, n);
      LinkedNode(s, r, null, s[n].parent);
      LeafRootAlone(s, r, s[n].parent);
    }
    assert Conts(s, [c]) == [s[c].cont];
    assert HasUp(s, r, c);
    assert Before(s[r].vals, Conts(s, s[r].kids), 0) == [];
  }
}
