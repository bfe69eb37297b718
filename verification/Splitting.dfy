/** Splitting a node in two keeps every link, every node's content and the order of the whole tree. */
module Splitting {
  import opened Entries
  import opened Weaving
  import opened Trees

  lemma SplitAt(s: Store, r: Node, p: Node, n: Node, q: nat, d: Node, k: nat, pr: Rec, nr: Rec, dr: Rec, x: Node)
    requires x in s && p in s && n in s && d !in s
    requires SameLink(pr, s[p]) && SameLink(nr, s[n]) && n != p && (p == r || s[p].parent != p)
    requires (p == r || s[p].parent != n)
    requires nr.lspine == s[n].lspine && pr.lspine == s[p].lspine && pr.rspine == s[p].rspine && pr.cont == s[p].cont
    ensures x in SplitLinks(s, r, p, n, q, d, k, pr, nr, dr)
    ensures var e := SplitLinks(s, r, p, n, q, d, k, pr, nr, dr)[x];
      && e.height == s[x].height && e.lspine == s[x].lspine
      && (x != n ==> e.cont == s[x].cont && SameSpine(e, s[x]))
      && (x != p && x != n ==> SameBody(e, s[x]))
      && (x == r || (s[x].parent != p && s[x].parent != n) ==> SameLink(e, s[x]))
  {
  }

  /** Nodes other than the two split halves and their parent keep their children and content. */
  lemma SplitDown(s: Store, r: Node, p: Node, q: nat, n: Node, d: Node, k: nat, x: Node)
    requires CanSplit(s, r, p, q, n, d, k)
    requires x in s && NodeOk(s, r, null, x) && x != p && x != n
    ensures var s' := SplitStore(s, r, p, q, n, d, k); x in s' && r in s' && DownOk(s', r, x) && ContOk(s', x)
  {
    hide SplitLinks, Linked, Flat, ContOk;
    var s' := SplitStore(s, r, p, q, n, d, k);
    var pr, nr, dr := SplitParent(s, p, q, n, d, k), SplitLeft(s, n, k), SplitRight(s, n, k);
    assert KidOk(s, r, p, n, q);
    SplitAt(s, r, p, n, q, d, k, pr, nr, dr, r);
    SplitAt(s, r, p, n, q, d, k, pr, nr, dr, x);
    forall i | 0 <= i < |s[x].kids|
      ensures s[x].kids[i] in s && s[x].kids[i] in s' && SameLink(s'[s[x].kids[i]], s[s[x].kids[i]])
      ensures s'[s[x].kids[i]].cont == s[s[x].kids[i]].cont
    {
      assert KidOk(s, r, x, s[x].kids[i], i);
      SplitAt(s, r, p, n, q, d, k, pr, nr, dr, s[x].kids[i]);
    }
    KeepDown(s, s', r, x);
  }

  lemma SplitUp(s: Store, r: Node, p: Node, q: nat, n: Node, d: Node, k: nat, x: Node)
    requires CanSplit(s, r, p, q, n, d, k)
    requires x in s && NodeOk(s, r, null, x)
    requires x == r || (s[x].parent != p && s[x].parent != n)
    ensures var s' := SplitStore(s, r, p, q, n, d, k); x in s' && r in s' && UpOk(s', r, x)
  {
    hide SplitLinks, Linked, Flat, ContOk;
    var s' := SplitStore(s, r, p, q, n, d, k);
    var pr, nr, dr := SplitParent(s, p, q, n, d, k), SplitLeft(s, n, k), SplitRight(s, n, k);
    assert KidOk(s, r, p, n, q);
    SplitAt(s, r, p, n, q, d, k, pr, nr, dr, r);
    SplitAt(s, r, p, n, q, d, k, pr, nr, dr, x);
    if x != r { SplitAt(s, r, p, n, q, d, k, pr, nr, dr, s[x].parent); }
    KeepUp(s, s', r, x);
  }

  /** The children of the split node, on either side of the cut, point back to their new place. */
  lemma SplitUpKid(s: Store, r: Node, p: Node, q: nat, n: Node, d: Node, k: nat, x: Node)
    requires CanSplit(s, r, p, q, n, d, k)
    requires x in s && NodeOk(s, r, null, x) && x != r && s[x].parent == n
    ensures var s' := SplitStore(s, r, p, q, n, d, k); x in s' && r in s' && UpOk(s', r, x)
  {
    hide Linked, Flat, ContOk;
    assert KidOk(s, r, p, n, q);
  }

  lemma SplitUpSibling(s: Store, r: Node, p: Node, q: nat, n: Node, d: Node, k: nat, x: Node)
    requires CanSplit(s, r, p, q, n, d, k)
    requires x in s && NodeOk(s, r, null, x) && x != r && s[x].parent == p
    ensures var s' := SplitStore(s, r, p, q, n, d, k); x in s' && r in s' && UpOk(s', r, x)
  {
    hide Linked, Flat, ContOk;
    assert KidOk(s, r, p, n, q);
  }

  lemma SplitUpNew(s: Store, r: Node, p: Node, q: nat, n: Node, d: Node, k: nat)
    requires CanSplit(s, r, p, q, n, d, k)
    ensures var s' := SplitStore(s, r, p, q, n, d, k); d in s' && r in s' && UpOk(s', r, d)
  {
    hide Linked, Flat, ContOk;
    assert KidOk(s, r, p, n, q);
  }

  lemma SplitKid(s: Store, r: Node, p: Node, q: nat, n: Node, d: Node, k: nat, i: nat)
    requires CanSplit(s, r, p, q, n, d, k) && i < |s[n].kids|
    ensures var s' := SplitStore(s, r, p, q, n, d, k); var x := s[n].kids[i];
      && x in s && x in s' && x != r && x != d && x != n && s'[x].height + 1 == s[n].height && s'[x].cont == s[x].cont
      && s'[x].parent == (if i <= k then n else d) && s'[x].position == (if i <= k then i else i - (k + 1))
  {
    hide Linked, Flat, ContOk;
    assert KidOk(s, r, p, n, q);
    assert KidOk(s, r, n, s[n].kids[i], i);
  }

  lemma SplitDownLeft(s: Store, r: Node, p: Node, q: nat, n: Node, d: Node, k: nat)
    requires CanSplit(s, r, p, q, n, d, k)
    ensures var s' := SplitStore(s, r, p, q, n, d, k); n in s' && r in s' && DownOk(s', r, n) && ContOk(s', n)
  {
    hide Linked, Flat;
    var s' := SplitStore(s, r, p, q, n, d, k);
    assert KidOk(s, r, p, n, q);
    assert s'[n] == SplitLeft(s, n, k) && r in s' && s'[r].height == s[r].height;
    hide SplitLinks, SplitStore;
    forall i | 0 <= i < |s'[n].kids|
      ensures KidOk(s', r, n, s'[n].kids[i], i) && Conts(s', s'[n].kids)[i] == Conts(s, s'[n].kids)[i]
    {
      SplitKid(s, r, p, q, n, d, k, i);
    }
    FlatSame(s, s', s'[n].vals, s'[n].kids, n.leaf);
  }

  lemma SplitDownNew(s: Store, r: Node, p: Node, q: nat, n: Node, d: Node, k: nat)
    requires CanSplit(s, r, p, q, n, d, k)
    ensures var s' := SplitStore(s, r, p, q, n, d, k); d in s' && r in s' && DownOk(s', r, d) && ContOk(s', d)
  {
    hide Linked, Flat;
    var s' := SplitStore(s, r, p, q, n, d, k);
    assert KidOk(s, r, p, n, q);
    assert s'[d] == SplitRight(s, n, k) && r in s' && s'[r].height == s[r].height;
    hide SplitLinks, SplitStore;
    forall i | 0 <= i < |s'[d].kids|
      ensures KidOk(s', r, d, s'[d].kids[i], i) && Conts(s', s'[d].kids)[i] == Conts(s, s'[d].kids)[i]
    {
      assert s'[d].kids[i] == s[n].kids[i + (k + 1)];
      SplitKid(s, r, p, q, n, d, k, i + (k + 1));
    }
    FlatSame(s, s', s'[d].vals, s'[d].kids, d.leaf);
  }

  /** The two halves and the value between them are the old content. */
  lemma SplitFlat(s: Store, r: Node, n: Node, k: nat)
    requires r in s && n in s && DownOk(s, r, n) && ContOk(s, n) && k < |s[n].vals|
    ensures SplitLeft(s, n, k).cont + [s[n].vals[k]] + SplitRight(s, n, k).cont == s[n].cont
  {
    var c := s[n];
    assert c.vals == c.vals[..k] + [c.vals[k]] + c.vals[k + 1..];
    if !n.leaf {
      var ks := Conts(s, c.kids);
      assert Conts(s, c.kids[..k + 1]) == ks[..k + 1] && Conts(s, c.kids[k + 1..]) == ks[k + 1..];
      assert ks == ks[..k + 1] + ks[k + 1..];
      WeaveConcat(c.vals[..k], ks[..k + 1], c.vals[k], c.vals[k + 1..], ks[k + 1..]);
    }
  }

  lemma SplitSibling(s: Store, r: Node, p: Node, q: nat, n: Node, d: Node, k: nat, i: nat)
    requires CanSplit(s, r, p, q, n, d, k) && i < |s[p].kids|
    ensures var s' := SplitStore(s, r, p, q, n, d, k); var x := s[p].kids[i];
      && x in s && x in s' && x != r && x != d && s'[x].height + 1 == s[p].height && s'[x].parent == p
      && s'[x].position == (if i <= q then i else i + 1)
      && s'[x].cont == (if i == q then SplitLeft(s, n, k).cont else s[x].cont)
  {
    hide Linked, Flat, ContOk;
    assert KidOk(s, r, p, n, q);
    assert KidOk(s, r, p, s[p].kids[i], i);
  }

  lemma SplitParentConts(s: Store, r: Node, p: Node, q: nat, n: Node, d: Node, k: nat)
    requires CanSplit(s, r, p, q, n, d, k)
    ensures
      var s', a, b := SplitStore(s, r, p, q, n, d, k), SplitLeft(s, n, k).cont, SplitRight(s, n, k).cont;
      && p in s' && s'[p] == SplitParent(s, p, q, n, d, k) && |s[p].kids| == |s[p].vals| + 1
      && Conts(s, s[p].kids)[q] == a + [s[n].vals[k]] + b
      && Conts(s', s'[p].kids) == Insert(Conts(s, s[p].kids), q + 1, b)[q := a]
      && forall i :: 0 <= i < |s'[p].kids| ==> KidOk(s', r, p, s'[p].kids[i], i)
  {
    hide *;
    SplitFacts(s, r, p, q, n, d, k);
    SplitFlat(s, r, n, k);
    SplitSelf(s, r, p, q, n, d, k);
    SplitParentIs(s, p, q, n, d, k);
    var s' := SplitStore(s, r, p, q, n, d, k);
    var ks, cs := s'[p].kids, Conts(s, s[p].kids);
    var a, b := SplitLeft(s, n, k).cont, SplitRight(s, n, k).cont;
    forall i | 0 <= i < |ks|
      ensures KidOk(s', r, p, ks[i], i) && Conts(s', ks)[i] == Insert(cs, q + 1, b)[q := a][i]
    {
      SplitParentKid(s, r, p, q, n, d, k, i);
      InsertAt(cs, q + 1, b, i);
    }
    assert Conts(s', ks) == Insert(cs, q + 1, b)[q := a];
  }

  lemma SplitParentIs(s: Store, p: Node, q: nat, n: Node, d: Node, k: nat)
    requires p in s && n in s && k < |s[n].vals| && q <= |s[p].vals| && q < |s[p].kids|
    ensures SplitParent(s, p, q, n, d, k).kids == Insert(s[p].kids, q + 1, d)
    ensures SplitParent(s, p, q, n, d, k).height == s[p].height
  {
  }

  lemma SplitFacts(s: Store, r: Node, p: Node, q: nat, n: Node, d: Node, k: nat)
    requires CanSplit(s, r, p, q, n, d, k)
    ensures r in s && n in s && p in s && DownOk(s, r, n) && ContOk(s, n) && k < |s[n].vals| && !p.leaf && d !in s
    ensures |s[p].kids| == |s[p].vals| + 1 && q < |s[p].kids| && s[p].kids[q] == n && n != p && d != r
    ensures s[n].height + 1 == s[p].height
  {
    hide Linked, ContOk, Flat;
    assert KidOk(s, r, p, n, q);
  }

  lemma SplitParentKid(s: Store, r: Node, p: Node, q: nat, n: Node, d: Node, k: nat, i: nat)
    requires CanSplit(s, r, p, q, n, d, k) && i <= |s[p].kids|
    ensures
      var s' := SplitStore(s, r, p, q, n, d, k);
      && p in s' && s'[p] == SplitParent(s, p, q, n, d, k)
      && KidOk(s', r, p, s'[p].kids[i], i) && s'[p].kids[i] in s'
      && (if i == q then s'[s'[p].kids[i]].cont == SplitLeft(s, n, k).cont
          else if i == q + 1 then s'[s'[p].kids[i]].cont == SplitRight(s, n, k).cont
          else
            var x := s[p].kids[if i < q then i else i - 1];
            x in s && s'[s'[p].kids[i]].cont == s[x].cont)
  {
    hide *;
    SplitFacts(s, r, p, q, n, d, k);
    SplitSelf(s, r, p, q, n, d, k);
    SplitParentIs(s, p, q, n, d, k);
    InsertAt(s[p].kids, q + 1, d, i);
    var s' := SplitStore(s, r, p, q, n, d, k);
    if i == q + 1 {
      SplitRightIs(s, p, q, n, k);
      IsKid(s', r, p, d, i);
    } else {
      SplitSibling(s, r, p, q, n, d, k, if i <= q then i else i - 1);
      IsKid(s', r, p, s'[p].kids[i], i);
    }
  }

  lemma SplitRightIs(s: Store, p: Node, q: nat, n: Node, k: nat)
    requires n in s && k < |s[n].vals|
    ensures SplitRight(s, n, k).parent == s[n].parent && SplitRight(s, n, k).position == s[n].position + 1
    ensures SplitRight(s, n, k).height == s[n].height
  {
  }

  lemma IsKid(s: Store, r: Node, p: Node, x: Node, i: nat)
    requires p in s && x in s && x != r && s[x].parent == p && s[x].position == i && s[x].height + 1 == s[p].height
    ensures KidOk(s, r, p, x, i)
  {
  }

  lemma SplitDownParent(s: Store, r: Node, p: Node, q: nat, n: Node, d: Node, k: nat)
    requires CanSplit(s, r, p, q, n, d, k)
    ensures var s' := SplitStore(s, r, p, q, n, d, k); p in s' && r in s' && DownOk(s', r, p) && ContOk(s', p)
  {
    hide Linked;
    var s' := SplitStore(s, r, p, q, n, d, k);
    assert KidOk(s, r, p, n, q);
    assert r in s' && s'[r].height == s[r].height;
    hide SplitLinks, SplitStore;
    SplitParentConts(s, r, p, q, n, d, k);
    WeaveSplit(s[p].vals, Conts(s, s[p].kids), q, SplitLeft(s, n, k).cont, s[n].vals[k], SplitRight(s, n, k).cont);
  }

  lemma SplitLinked(s: Store, r: Node, p: Node, q: nat, n: Node, d: Node, k: nat)
    requires CanSplit(s, r, p, q, n, d, k)
    ensures Linked(SplitStore(s, r, p, q, n, d, k), r, null)
    ensures SplitStore(s, r, p, q, n, d, k)[r].cont == s[r].cont
  {
    hide *;
    SplitRoot(s, r, p, q, n, d, k);
    var s' := SplitStore(s, r, p, q, n, d, k);
    forall x | x in s'
      ensures NodeOk(s', r, null, x)
    {
      if x == d {
        SplitNew(s, r, p, q, n, d, k);
      } else {
        SplitOld(s, r, p, q, n, d, k, x);
      }
    }
    IsLinked(s', r);
  }

  lemma SplitRoot(s: Store, r: Node, p: Node, q: nat, n: Node, d: Node, k: nat)
    requires CanSplit(s, r, p, q, n, d, k)
    ensures
      var s' := SplitStore(s, r, p, q, n, d, k);
      && r in s' && s'.Keys == s.Keys + {d} && s'[r].cont == s[r].cont
      && s'[r].parent in s' && s'[r].parent.leaf && s'[s'[r].parent].lspine
  {
    LinkedFirst(s, r, null);
    hide CanSplit, SplitStore, SplitLinks, Linked, NodeOk;
    SplitSelf(s, r, p, q, n, d, k);
    if r != p {
      SplitOther(s, r, p, q, n, d, k, r);
    }
    if s[r].parent != n {
      SplitOther(s, r, p, q, n, d, k, s[r].parent);
    }
  }

  lemma SplitNew(s: Store, r: Node, p: Node, q: nat, n: Node, d: Node, k: nat)
    requires CanSplit(s, r, p, q, n, d, k)
    ensures d in SplitStore(s, r, p, q, n, d, k) && r in SplitStore(s, r, p, q, n, d, k)
    ensures NodeOk(SplitStore(s, r, p, q, n, d, k), r, null, d)
  {
    hide SplitStore, DownOk, UpOk, ContOk, Linked;
    SplitUpNew(s, r, p, q, n, d, k);
    SplitDownNew(s, r, p, q, n, d, k);
  }

  lemma SplitOld(s: Store, r: Node, p: Node, q: nat, n: Node, d: Node, k: nat, x: Node)
    requires CanSplit(s, r, p, q, n, d, k) && x in s
    ensures x in SplitStore(s, r, p, q, n, d, k) && r in SplitStore(s, r, p, q, n, d, k)
    ensures NodeOk(SplitStore(s, r, p, q, n, d, k), r, null, x)
  {
    hide SplitStore, DownOk, UpOk, ContOk;
    LinkedNode(s, r, null, x);
    hide Linked;
    if x == n {
      SplitDownLeft(s, r, p, q, n, d, k);
    } else if x == p {
      SplitDownParent(s, r, p, q, n, d, k);
    } else {
      SplitDown(s, r, p, q, n, d, k, x);
    }
    if x == r || (s[x].parent != p && s[x].parent != n) {
      SplitUp(s, r, p, q, n, d, k, x);
    } else if s[x].parent == n {
      SplitUpKid(s, r, p, q, n, d, k, x);
    } else {
      SplitUpSibling(s, r, p, q, n, d, k, x);
    }
  }

  lemma SplitLinkAt(s: Store, r: Node, p: Node, n: Node, q: nat, d: Node, k: nat, pr: Rec, nr: Rec, dr: Rec, x: Node)
    requires x in s && p in s && n in s && d !in s && x != n && x != p
    ensures
      var t := SplitLinks(s, r, p, n, q, d, k, pr, nr, dr);
      && x in t && SameData(t[x], s[x])
      && t[x].parent == (if x != r && s[x].parent == n && s[x].position > k then d else s[x].parent)
      && t[x].position == if x != r && s[x].parent == n && s[x].position > k then s[x].position - (k + 1)
                          else if x != r && s[x].parent == p && s[x].position > q then s[x].position + 1
                          else s[x].position
  {
  }

  lemma SplitOther(s: Store, r: Node, p: Node, q: nat, n: Node, d: Node, k: nat, x: Node)
    requires CanSplit(s, r, p, q, n, d, k) && x in s && x != n && x != p
    ensures
      var s' := SplitStore(s, r, p, q, n, d, k);
      && x in s' && SameData(s'[x], s[x])
      && s'[x].parent == (if x != r && s[x].parent == n && s[x].position > k then d else s[x].parent)
      && s'[x].position == if x != r && s[x].parent == n && s[x].position > k then s[x].position - (k + 1)
                           else if x != r && s[x].parent == p && s[x].position > q then s[x].position + 1
                           else s[x].position
  {
    hide Linked, NodeOk, SplitLinks, SplitLeft, SplitRight, SplitParent;
    SplitCounted(s, r, p, q, n, d, k);
    SplitLinkAt(s, r, p, n, q, d, k, SplitParent(s, p, q, n, d, k), SplitLeft(s, n, k), SplitRight(s, n, k), x);
  }

  lemma SplitCounted(s: Store, r: Node, p: Node, q: nat, n: Node, d: Node, k: nat)
    requires CanSplit(s, r, p, q, n, d, k)
    ensures p in s && n in s && d !in s && q <= |s[p].vals| && q < |s[p].kids| && k < |s[n].vals|
  {
  }

  lemma SplitSelf(s: Store, r: Node, p: Node, q: nat, n: Node, d: Node, k: nat)
    requires CanSplit(s, r, p, q, n, d, k)
    ensures
      var s' := SplitStore(s, r, p, q, n, d, k);
      && s'.Keys == s.Keys + {d} && n != p && n in s' && d in s' && p in s'
      && s'[n] == SplitLeft(s, n, k) && s'[d] == SplitRight(s, n, k) && s'[p] == SplitParent(s, p, q, n, d, k)
      && s[n].parent == p && s[n].position == q && n != r
  {
    hide Linked, ContOk, Flat, Conts;
    assert KidOk(s, r, p, n, q);
    hide DownOk, UpOk, SplitParent;
  }
}
