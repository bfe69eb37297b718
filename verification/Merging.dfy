/** Merging a node with its right sibling keeps every link, every node's content and the order of the whole tree. */
module Merging {
  import opened Entries
  import opened Weaving
  import opened Trees

  lemma MergeAt(s: Store, r: Node, p: Node, l: Node, q: nat, x: Node, m: nat, pr: Rec, lr: Rec, y: Node)
    requires y in s && y != x && p in s && l in s && p != x && l != x
    requires SameLink(pr, s[p]) && SameLink(lr, s[l]) && l != p && (p == r || (s[p].parent != p && s[p].parent != x))
    requires l != r && s[l].parent == p && s[l].position == q
    requires lr.lspine == s[l].lspine && SameSpine(pr, s[p]) && pr.cont == s[p].cont
    ensures y in MergeLinks(s, r, p, l, q, x, m, pr, lr)
    ensures var e := MergeLinks(s, r, p, l, q, x, m, pr, lr)[y];
      && e.height == s[y].height && e.lspine == s[y].lspine
      && (y != l ==> e.cont == s[y].cont && SameSpine(e, s[y]))
      && (y != p && y != l ==> SameBody(e, s[y]))
      && (y == r || (s[y].parent != p && s[y].parent != x) ==> SameLink(e, s[y]))
  {
  }

  lemma MergeDown(s: Store, r: Node, p: Node, q: nat, l: Node, x: Node, y: Node)
    requires CanMerge(s, r, p, q, l, x)
    requires y in s && NodeOk(s, r, null, y) && y != p && y != l && y != x
    ensures var s' := MergeStore(s, r, p, q, l, x); y in s' && r in s' && DownOk(s', r, y) && ContOk(s', y)
  {
    hide MergeLinks, Linked, Flat, ContOk;
    var s' := MergeStore(s, r, p, q, l, x);
    var m, pr, lr := |s[l].vals| + 1, MergeParent(s, p, q), MergeLeft(s, l, s[p].vals[q], x);
    assert KidOk(s, r, p, l, q);
    assert KidOk(s, r, p, x, q + 1);
    MergeAt(s, r, p, l, q, x, m, pr, lr, r);
    MergeAt(s, r, p, l, q, x, m, pr, lr, y);
    forall i | 0 <= i < |s[y].kids|
      ensures s[y].kids[i] in s && s[y].kids[i] in s' && SameLink(s'[s[y].kids[i]], s[s[y].kids[i]])
      ensures s'[s[y].kids[i]].cont == s[s[y].kids[i]].cont
    {
      assert KidOk(s, r, y, s[y].kids[i], i);
      MergeAt(s, r, p, l, q, x, m, pr, lr, s[y].kids[i]);
    }
    KeepDown(s, s', r, y);
  }

  lemma MergeUp(s: Store, r: Node, p: Node, q: nat, l: Node, x: Node, y: Node)
    requires CanMerge(s, r, p, q, l, x)
    requires y in s && NodeOk(s, r, null, y) && y != x
    requires y == r || (s[y].parent != p && s[y].parent != l && s[y].parent != x)
    ensures var s' := MergeStore(s, r, p, q, l, x); y in s' && r in s' && UpOk(s', r, y)
  {
    hide MergeLinks, Linked, Flat, ContOk;
    var s' := MergeStore(s, r, p, q, l, x);
    var m, pr, lr := |s[l].vals| + 1, MergeParent(s, p, q), MergeLeft(s, l, s[p].vals[q], x);
    assert KidOk(s, r, p, l, q);
    assert KidOk(s, r, p, x, q + 1);
    MergeAt(s, r, p, l, q, x, m, pr, lr, r);
    MergeAt(s, r, p, l, q, x, m, pr, lr, y);
    if y != r { MergeAt(s, r, p, l, q, x, m, pr, lr, s[y].parent); }
    KeepUp(s, s', r, y);
  }

  lemma MergeUpLeftKid(s: Store, r: Node, p: Node, q: nat, l: Node, x: Node, y: Node)
    requires CanMerge(s, r, p, q, l, x)
    requires y in s && NodeOk(s, r, null, y) && y != r && s[y].parent == l
    ensures var s' := MergeStore(s, r, p, q, l, x); y in s' && r in s' && UpOk(s', r, y)
  {
    hide Linked, Flat, ContOk;
    assert KidOk(s, r, p, l, q);
    assert KidOk(s, r, p, x, q + 1);
  }

  lemma MergeUpRightKid(s: Store, r: Node, p: Node, q: nat, l: Node, x: Node, y: Node)
    requires CanMerge(s, r, p, q, l, x)
    requires y in s && NodeOk(s, r, null, y) && y != r && s[y].parent == x
    ensures var s' := MergeStore(s, r, p, q, l, x); y in s' && r in s' && UpOk(s', r, y)
  {
    hide Linked, Flat, ContOk;
    assert KidOk(s, r, p, l, q);
    assert KidOk(s, r, p, x, q + 1);
  }

  lemma MergeUpSibling(s: Store, r: Node, p: Node, q: nat, l: Node, x: Node, y: Node)
    requires CanMerge(s, r, p, q, l, x)
    requires y in s && NodeOk(s, r, null, y) && y != r && s[y].parent == p && y != x
    ensures var s' := MergeStore(s, r, p, q, l, x); y in s' && r in s' && UpOk(s', r, y)
  {
    hide Linked, Flat, ContOk;
    assert KidOk(s, r, p, l, q);
    assert KidOk(s, r, p, x, q + 1);
  }

  lemma MergeKid(s: Store, r: Node, p: Node, q: nat, l: Node, x: Node, i: nat)
    requires CanMerge(s, r, p, q, l, x) && i < |s[l].kids| + |s[x].kids|
    ensures var s' := MergeStore(s, r, p, q, l, x); var y := (s[l].kids + s[x].kids)[i];
      && y in s && y in s' && y != r && y != l && y != x && s'[y].height + 1 == s[l].height && s'[y].cont == s[y].cont
      && s'[y].parent == l && s'[y].position == i
  {
    hide Linked, Flat, ContOk;
    assert KidOk(s, r, p, l, q);
    assert KidOk(s, r, p, x, q + 1);
    if i < |s[l].kids| {
      assert KidOk(s, r, l, s[l].kids[i], i);
    } else {
      assert KidOk(s, r, x, s[x].kids[i - |s[l].kids|], i - |s[l].kids|);
    }
  }

  lemma MergeFlat(s: Store, r: Node, p: Node, q: nat, l: Node, x: Node)
    requires CanMerge(s, r, p, q, l, x)
    ensures var e := MergeLeft(s, l, s[p].vals[q], x); l.leaf == x.leaf && e.cont == Flat(s, l.leaf, e.vals, e.kids)
  {
    hide Linked;
    assert KidOk(s, r, p, l, q);
    assert KidOk(s, r, p, x, q + 1);
    if !l.leaf {
      assert Conts(s, s[l].kids + s[x].kids) == Conts(s, s[l].kids) + Conts(s, s[x].kids);
      WeaveConcat(s[l].vals, Conts(s, s[l].kids), s[p].vals[q], s[x].vals, Conts(s, s[x].kids));
    }
  }

  lemma MergeDownLeft(s: Store, r: Node, p: Node, q: nat, l: Node, x: Node)
    requires CanMerge(s, r, p, q, l, x)
    ensures var s' := MergeStore(s, r, p, q, l, x); l in s' && r in s' && DownOk(s', r, l) && ContOk(s', l)
  {
    hide Linked, Flat;
    var s' := MergeStore(s, r, p, q, l, x);
    assert KidOk(s, r, p, l, q);
    assert KidOk(s, r, p, x, q + 1);
    assert s'[l] == MergeLeft(s, l, s[p].vals[q], x) && r in s' && s'[r].height == s[r].height;
    hide MergeLinks, MergeStore;
    forall i | 0 <= i < |s'[l].kids|
      ensures KidOk(s', r, l, s'[l].kids[i], i) && Conts(s', s'[l].kids)[i] == Conts(s, s'[l].kids)[i]
    {
      MergeKid(s, r, p, q, l, x, i);
    }
    MergeFlat(s, r, p, q, l, x);
    FlatSame(s, s', s'[l].vals, s'[l].kids, l.leaf);
  }

  lemma MergeSibling(s: Store, r: Node, p: Node, q: nat, l: Node, x: Node, i: nat)
    requires CanMerge(s, r, p, q, l, x) && i < |s[p].kids| && i != q + 1
    ensures var s' := MergeStore(s, r, p, q, l, x); var y := s[p].kids[i];
      && y in s && y in s' && y != r && s'[y].height + 1 == s[p].height && s'[y].parent == p
      && s'[y].position == (if i <= q then i else i - 1)
      && s'[y].cont == (if i == q then MergeLeft(s, l, s[p].vals[q], x).cont else s[y].cont)
  {
    hide Linked, Flat, ContOk;
    assert KidOk(s, r, p, l, q);
    assert KidOk(s, r, p, x, q + 1);
    assert KidOk(s, r, p, s[p].kids[i], i);
  }

  lemma MergeDownParent(s: Store, r: Node, p: Node, q: nat, l: Node, x: Node)
    requires CanMerge(s, r, p, q, l, x)
    ensures var s' := MergeStore(s, r, p, q, l, x); p in s' && r in s' && DownOk(s', r, p) && ContOk(s', p)
  {
    hide Linked, Weave, Before;
    var s' := MergeStore(s, r, p, q, l, x);
    assert KidOk(s, r, p, l, q);
    assert KidOk(s, r, p, x, q + 1);
    assert s'[p] == MergeParent(s, p, q) && r in s' && s'[r].height == s[r].height;
    hide MergeLinks, MergeStore;
    var ks, cs := s'[p].kids, Conts(s, s[p].kids);
    var c := cs[q] + [s[p].vals[q]] + cs[q + 1];
    forall i | 0 <= i < |ks|
      ensures KidOk(s', r, p, ks[i], i) && Conts(s', ks)[i] == Remove(cs, q + 1)[q := c][i]
    {
      MergeSibling(s, r, p, q, l, x, if i <= q then i else i + 1);
    }
    assert Conts(s', ks) == Remove(cs, q + 1)[q := c];
    WeaveMerge(s[p].vals, cs, q);
  }

  lemma MergeLinked(s: Store, r: Node, p: Node, q: nat, l: Node, x: Node)
    requires CanMerge(s, r, p, q, l, x)
    ensures Linked(MergeStore(s, r, p, q, l, x), r, null)
    ensures MergeStore(s, r, p, q, l, x)[r].cont == s[r].cont
  {
    var s' := MergeStore(s, r, p, q, l, x);
    assert s'.Keys == s.Keys - {x};
    assert KidOk(s, r, p, l, q);
    assert KidOk(s, r, p, x, q + 1);
    assert r in s' && s'[r].cont == s[r].cont && s'[r].parent == s[r].parent;
    assert s[s[r].parent].lspine && s[r].parent in s' && s'[s[r].parent].lspine;
    hide MergeStore, MergeLinks, MergeLeft, MergeParent, DownOk, UpOk, ContOk;
    forall y | y in s'
      ensures NodeOk(s', r, null, y)
    {
      assert NodeOk(s, r, null, y);
      if y == l {
        MergeDownLeft(s, r, p, q, l, x);
      } else if y == p {
        MergeDownParent(s, r, p, q, l, x);
      } else {
        MergeDown(s, r, p, q, l, x, y);
      }
      if y == r || (s[y].parent != p && s[y].parent != l && s[y].parent != x) {
        MergeUp(s, r, p, q, l, x, y);
      } else if s[y].parent == l {
        MergeUpLeftKid(s, r, p, q, l, x, y);
      } else if s[y].parent == x {
        MergeUpRightKid(s, r, p, q, l, x, y);
      } else {
        MergeUpSibling(s, r, p, q, l, x, y);
      }
    }
  }

  lemma MergeOther(s: Store, r: Node, p: Node, q: nat, l: Node, x: Node, y: Node)
    requires CanMerge(s, r, p, q, l, x) && y in s && y != p && y != l && y != x
    ensures
      var s' := MergeStore(s, r, p, q, l, x);
      && y in s' && SameData(s'[y], s[y])
      && s'[y].parent == (if y != r && s[y].parent == x then l else s[y].parent)
      && s'[y].position == if y != r && s[y].parent == x then s[y].position + (|s[l].vals| + 1)
                           else if y != r && s[y].parent == p && s[y].position > q + 1 then s[y].position - 1
                           else s[y].position
  {
    hide Linked;
    assert KidOk(s, r, p, l, q);
    assert KidOk(s, r, p, x, q + 1);
  }

  lemma MergeSelf(s: Store, r: Node, p: Node, q: nat, l: Node, x: Node)
    requires CanMerge(s, r, p, q, l, x)
    ensures
      var m := MergeStore(s, r, p, q, l, x);
      && r in s && l in s && x in s && p in s && q < |s[p].vals| && |s[p].kids| == |s[p].vals| + 1
      && s[p].kids[q + 1] == x
      && m.Keys == s.Keys - {x} && l in m && p in m && l != p && x != l && x != p
      && m[l] == MergeLeft(s, l, s[p].vals[q], x) && m[p] == MergeParent(s, p, q)
      && s[l].parent == p && s[x].parent == p && s[l].position == q && s[x].position == q + 1 && l != r && x != r
      && s[l].height == s[x].height && s[l].height + 1 == s[p].height && l.leaf == x.leaf
  {
    hide Linked;
    assert KidOk(s, r, p, l, q);
    assert KidOk(s, r, p, x, q + 1);
  }
}
