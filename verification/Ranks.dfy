/** Where a node's content lies in the whole tree's order, computed by climbing the parent links. */
module Ranks {
  import opened Entries
  import opened Weaving
  import opened Trees
  import opened Splitting
  import opened Merging

  ghost predicate HasUp(s: Store, r: Node, n: Node) {
    && n != r && r in s && n in s && s[n].parent in s
    && s[n].height + 1 == s[s[n].parent].height <= s[r].height
    && s[n].position <= |s[s[n].parent].vals| && s[n].position < |s[s[n].parent].kids|
  }

  /** Everything below n's parent that comes before n. */
  ghost function LeftOf(s: Store, r: Node, n: Node): seq<Entry>
    requires HasUp(s, r, n)
  {
    Before(s[s[n].parent].vals, Conts(s, s[s[n].parent].kids), s[n].position)
  }

  ghost function Off(s: Store, r: Node, n: Node): nat
    decreases if r in s && n in s then s[r].height - s[n].height else 0
  {
    if HasUp(s, r, n) then Off(s, r, s[n].parent) + |LeftOf(s, r, n)| else 0
  }

  lemma UpFromNode(s: Store, r: Node, h: Node?, n: Node)
    requires Linked(s, r, h) && n in s && n != r
    ensures HasUp(s, r, n)
  {
    assert NodeOk(s, r, h, n);
    assert NodeOk(s, r, h, s[n].parent);
  }

  lemma ParentCont(s: Store, r: Node, h: Node?, n: Node)
    requires Linked(s, r, h) && n in s && n != r && s[n].parent != h
    ensures HasUp(s, r, n)
    ensures
      var p := s[n].parent;
      && |s[p].kids| == |s[p].vals| + 1 && Conts(s, s[p].kids)[s[n].position] == s[n].cont
      && s[p].cont == LeftOf(s, r, n) + s[n].cont + After(s[p].vals, Conts(s, s[p].kids), s[n].position)
  {
    UpFromNode(s, r, h, n);
    assert NodeOk(s, r, h, n);
    var p := s[n].parent;
    assert NodeOk(s, r, h, p);
    WeaveAround(s[p].vals, Conts(s, s[p].kids), s[n].position);
  }

  /** The content of a linked node is the stretch of the whole order that starts at its offset. */
  lemma {:induction false} SliceAt(s: Store, r: Node, h: Node?, n: Node)
    requires Linked(s, r, h) && n in s
    requires h == null || (h in s && s[h].height <= s[n].height)
    ensures Off(s, r, n) + |s[n].cont| <= |s[r].cont|
    ensures s[r].cont[Off(s, r, n)..Off(s, r, n) + |s[n].cont|] == s[n].cont
    decreases s[r].height - s[n].height
  {
    if n == r {
      OffRoot(s, r);
    } else {
      hide *;
      var p := s[n].parent;
      UpFacts(s, r, h, n);
      ParentCont(s, r, h, n);
      SliceAt(s, r, h, p);
      NestedSlice(s[r].cont, Off(s, r, p), s[p].cont, LeftOf(s, r, n), s[n].cont,
        After(s[p].vals, Conts(s, s[p].kids), s[n].position), Off(s, r, n));
    }
  }

  lemma OffRoot(s: Store, r: Node)
    requires r in s
    ensures Off(s, r, r) == 0
  {
  }

  /** A node's parent is higher, and its content starts where the parent's does but for what is left of it there. */
  lemma UpFacts(s: Store, r: Node, h: Node?, n: Node)
    requires Linked(s, r, h) && n in s && n != r
    ensures HasUp(s, r, n) && s[n].height < s[s[n].parent].height <= s[r].height
    ensures Off(s, r, n) == Off(s, r, s[n].parent) + |LeftOf(s, r, n)|
  {
    UpFromNode(s, r, h, n);
    assert NodeOk(s, r, h, n);
    assert NodeOk(s, r, h, s[n].parent);
  }

  /** A stretch c of a stretch b of a is a stretch of a. */
  lemma NestedSlice<T>(a: seq<T>, i: nat, b: seq<T>, l: seq<T>, c: seq<T>, r: seq<T>, o: nat)
    requires i + |b| <= |a| && a[i..i + |b|] == b && b == l + c + r && o == i + |l|
    ensures o + |c| <= |a| && a[o..o + |c|] == c
  {
    SliceOf(b, l, c, r);
    Subslice(a, i, b, |l|, c);
  }

  lemma SliceOf<T>(b: seq<T>, l: seq<T>, c: seq<T>, r: seq<T>)
    requires b == l + c + r
    ensures |l| + |c| <= |b| && b[|l|..|l| + |c|] == c
  {
  }

  lemma Subslice<T>(a: seq<T>, i: nat, b: seq<T>, j: nat, c: seq<T>)
    requires i + |b| <= |a| && a[i..i + |b|] == b && j + |c| <= |b| && b[j..j + |c|] == c
    ensures a[i + j..i + j + |c|] == c
  {
    forall k | 0 <= k < |c|
      ensures a[i + j + k] == c[k]
    {
      assert a[i + j + k] == a[i..i + |b|][j + k] == b[j..j + |c|][k];
    }
  }

  // --- offsets survive a split ---

  lemma SplitLeftOther(s: Store, r: Node, p: Node, q: nat, n: Node, d: Node, k: nat, x: Node)
    requires CanSplit(s, r, p, q, n, d, k) && x in s && x != r && s[x].parent != p && s[x].parent != n
    ensures
      var s' := SplitStore(s, r, p, q, n, d, k);
      HasUp(s, r, x) && HasUp(s', r, x) && s'[x].parent == s[x].parent && LeftOf(s', r, x) == LeftOf(s, r, x)
  {
    hide SplitLinks, Before;
    var s' := SplitStore(s, r, p, q, n, d, k);
    var pr, nr, dr := SplitParent(s, p, q, n, d, k), SplitLeft(s, n, k), SplitRight(s, n, k);
    UpFromNode(s, r, null, x);
    var y := s[x].parent;
    assert NodeOk(s, r, null, y);
    assert KidOk(s, r, p, n, q);
    SplitAt(s, r, p, n, q, d, k, pr, nr, dr, r);
    SplitAt(s, r, p, n, q, d, k, pr, nr, dr, x);
    SplitAt(s, r, p, n, q, d, k, pr, nr, dr, y);
    forall i | 0 <= i < |s[y].kids|
      ensures Conts(s', s[y].kids)[i] == Conts(s, s[y].kids)[i]
    {
      assert KidOk(s, r, y, s[y].kids[i], i);
      SplitAt(s, r, p, n, q, d, k, pr, nr, dr, s[y].kids[i]);
    }
    assert Conts(s', s[y].kids) == Conts(s, s[y].kids);
  }

  lemma SplitLeftSibling(s: Store, r: Node, p: Node, q: nat, n: Node, d: Node, k: nat, x: Node)
    requires CanSplit(s, r, p, q, n, d, k) && x in s && x != r && s[x].parent == p
    ensures
      var s' := SplitStore(s, r, p, q, n, d, k);
      HasUp(s, r, x) && HasUp(s', r, x) && s'[x].parent == p && LeftOf(s', r, x) == LeftOf(s, r, x)
  {
    hide Linked, SplitStore, SplitLinks, Before, SplitLeft, SplitRight;
    UpFromNode(s, r, null, x);
    var i := s[x].position;
    assert NodeOk(s, r, null, x) by { LinkedNode(s, r, null, x); }
    SplitLinked(s, r, p, q, n, d, k);
    SplitSibling(s, r, p, q, n, d, k, i);
    SplitParentConts(s, r, p, q, n, d, k);
    UpFromNode(SplitStore(s, r, p, q, n, d, k), r, null, x);
    BeforeInsert(s[p].vals, Conts(s, s[p].kids), q, SplitLeft(s, n, k).cont, s[n].vals[k], SplitRight(s, n, k).cont, i);
  }

  /** The new node starts right after what its left half kept and the value that moved up. */
  lemma SplitLeftNew(s: Store, r: Node, p: Node, q: nat, n: Node, d: Node, k: nat)
    requires CanSplit(s, r, p, q, n, d, k)
    ensures
      var s' := SplitStore(s, r, p, q, n, d, k);
      && HasUp(s, r, n) && HasUp(s', r, d) && s'[d].parent == p && s[n].parent == p
      && LeftOf(s', r, d) == LeftOf(s, r, n) + SplitLeft(s, n, k).cont + [s[n].vals[k]]
  {
    var s' := SplitStore(s, r, p, q, n, d, k);
    assert s'[d] == SplitRight(s, n, k) && s[n].position == q && s[n].parent == p && n != r
      by { assert KidOk(s, r, p, n, q); }
    hide Linked, SplitStore, SplitLinks, Before, SplitLeft;
    SplitLinked(s, r, p, q, n, d, k);
    UpFromNode(s, r, null, n);
    SplitParentConts(s, r, p, q, n, d, k);
    assert KidOk(s', r, p, s'[p].kids[q + 1], q + 1);
    UpFromNode(s', r, null, d);
    BeforeInsert(s[p].vals, Conts(s, s[p].kids), q, SplitLeft(s, n, k).cont, s[n].vals[k], SplitRight(s, n, k).cont, q);
  }

  lemma SplitLeftKid(s: Store, r: Node, p: Node, q: nat, n: Node, d: Node, k: nat, i: nat)
    requires CanSplit(s, r, p, q, n, d, k) && i < |s[n].kids|
    ensures
      var s', x := SplitStore(s, r, p, q, n, d, k), s[n].kids[i];
      && HasUp(s, r, x) && HasUp(s', r, x) && s[x].parent == n
      && (i <= k ==> s'[x].parent == n && LeftOf(s', r, x) == LeftOf(s, r, x))
      && (i > k ==> s'[x].parent == d && LeftOf(s, r, x) == SplitLeft(s, n, k).cont + [s[n].vals[k]] + LeftOf(s', r, x))
  {
    var s', x := SplitStore(s, r, p, q, n, d, k), s[n].kids[i];
    assert s'[d] == SplitRight(s, n, k) && s'[n] == SplitLeft(s, n, k) by { assert KidOk(s, r, p, n, q); }
    assert KidOk(s, r, n, x, i);
    hide Linked, SplitStore, SplitLinks, Before;
    SplitLinked(s, r, p, q, n, d, k);
    UpFromNode(s, r, null, x);
    SplitKid(s, r, p, q, n, d, k, i);
    UpFromNode(s', r, null, x);
    SplitHalfConts(s, r, p, q, n, d, k);
    BeforeHalves(s[n].vals, Conts(s, s[n].kids), k, i);
  }

  lemma SplitHalfConts(s: Store, r: Node, p: Node, q: nat, n: Node, d: Node, k: nat)
    requires CanSplit(s, r, p, q, n, d, k) && !n.leaf
    ensures
      var s', c := SplitStore(s, r, p, q, n, d, k), s[n];
      && |c.kids| == |c.vals| + 1
      && Conts(s', Take(c.kids, k + 1)) == Conts(s, c.kids)[..k + 1] == Conts(s, Take(c.kids, k + 1))
      && Conts(s', Drop(c.kids, k + 1)) == Conts(s, c.kids)[k + 1..]
  {
    hide Linked, SplitStore, SplitLinks;
    var s' := SplitStore(s, r, p, q, n, d, k);
    forall i | 0 <= i < |s[n].kids|
      ensures Conts(s', s[n].kids)[i] == Conts(s, s[n].kids)[i]
    {
      SplitKid(s, r, p, q, n, d, k, i);
    }
    assert Conts(s', s[n].kids) == Conts(s, s[n].kids);
    assert Conts(s', Take(s[n].kids, k + 1)) == Conts(s', s[n].kids)[..k + 1];
    assert Conts(s', Drop(s[n].kids, k + 1)) == Conts(s', s[n].kids)[k + 1..];
    assert Conts(s, Take(s[n].kids, k + 1)) == Conts(s, s[n].kids)[..k + 1];
  }

  lemma BeforeHalves(v: seq<Entry>, ks: seq<seq<Entry>>, k: nat, i: nat)
    requires |ks| == |v| + 1 && k < |v| && i <= |v|
    ensures i <= k ==> Before(v[..k], ks[..k + 1], i) == Before(v, ks, i)
    ensures i > k ==>
      Before(v, ks, i) == Weave(v[..k], ks[..k + 1]) + [v[k]] + Before(v[k + 1..], ks[k + 1..], i - (k + 1))
  {
    if i <= k {
      BeforePrefix(v[..k], ks[..k + 1], v, ks, i);
    } else {
      BeforeSplit(v, ks, k + 1, i - (k + 1));
      BeforePrefix(v[..k], ks[..k + 1], v, ks, k);
    }
  }

  /** Splitting moves nothing: every old node still starts where it started. */
  lemma {:induction false} SplitOff(s: Store, r: Node, p: Node, q: nat, n: Node, d: Node, k: nat, x: Node)
    requires CanSplit(s, r, p, q, n, d, k) && x in s
    ensures Off(SplitStore(s, r, p, q, n, d, k), r, x) == Off(s, r, x)
    decreases s[r].height - s[x].height
  {
    if x != r {
      LinkedNode(s, r, null, x);
      var y := s[x].parent;
      LinkedNode(s, r, null, y);
      assert s[y].height == s[x].height + 1 <= s[r].height;
      hide SplitStore, LeftOf, Linked, DownOk, ContOk;
      UpFromNode(s, r, null, x);
      SplitOff(s, r, p, q, n, d, k, y);
      if y == p {
        SplitLeftSibling(s, r, p, q, n, d, k, x);
      } else if y == n {
        SplitLeftKid(s, r, p, q, n, d, k, s[x].position);
        SplitOffParent(s, r, p, q, n, d, k);
        SplitOff(s, r, p, q, n, d, k, p);
        SplitLeftNew(s, r, p, q, n, d, k);
      } else {
        SplitLeftOther(s, r, p, q, n, d, k, x);
      }
    }
  }

  lemma SplitOffParent(s: Store, r: Node, p: Node, q: nat, n: Node, d: Node, k: nat)
    requires CanSplit(s, r, p, q, n, d, k)
    ensures n != r && s[n].parent == p && s[n].height + 1 == s[p].height <= s[r].height
  {
    assert KidOk(s, r, p, n, q);
  }

  /** The new node starts right after the value that moved up. */
  lemma SplitOffNew(s: Store, r: Node, p: Node, q: nat, n: Node, d: Node, k: nat)
    requires CanSplit(s, r, p, q, n, d, k)
    ensures Off(SplitStore(s, r, p, q, n, d, k), r, d) == Off(s, r, n) + |SplitLeft(s, n, k).cont| + 1
  {
    hide SplitStore, LeftOf, Linked, DownOk, ContOk, SplitLeft;
    SplitLeftNew(s, r, p, q, n, d, k);
    SplitOff(s, r, p, q, n, d, k, p);
  }

  // --- merging is undone by splitting ---

  lemma MergeThenSplitAt(s: Store, r: Node, p: Node, q: nat, l: Node, x: Node, pr: Rec, lr: Rec, k: nat, y: Node)
    requires CanMerge(s, r, p, q, l, x) && y in s && k == |s[l].vals|
    ensures
      var m := MergeLinks(s, r, p, l, q, x, k + 1, pr, lr);
      var s' := SplitLinks(m, r, p, l, q, x, k, s[p], s[l], s[x]);
      y in s' && s'[y] == s[y]
  {
    hide CanMerge, MergeStore, MergeLeft, MergeParent, Linked, NodeOk;
    MergeSelf(s, r, p, q, l, x);
    if y != r && y != l && y != x { MergedPlace(s, r, p, q, l, x, y); }
  }

  lemma MergedPlace(s: Store, r: Node, p: Node, q: nat, l: Node, x: Node, y: Node)
    requires CanMerge(s, r, p, q, l, x) && y in s && y != r && y != l && y != x
    ensures l in s && (s[y].parent == l ==> s[y].position <= |s[l].vals|)
    ensures s[y].parent == p ==> s[y].position != q && s[y].position != q + 1
  {
    LinkedNode(s, r, null, y);
    hide Linked, ContOk;
  }

  lemma MergeCanSplit(s: Store, r: Node, p: Node, q: nat, l: Node, x: Node)
    requires CanMerge(s, r, p, q, l, x)
    ensures CanSplit(MergeStore(s, r, p, q, l, x), r, p, q, l, x, |s[l].vals|)
  {
    var m, k := MergeStore(s, r, p, q, l, x), |s[l].vals|;
    assert l.leaf == x.leaf && x !in m by {
      assert KidOk(s, r, p, l, q);
      assert KidOk(s, r, p, x, q + 1);
    }
    hide MergeStore, MergeLinks, DownOk, UpOk, ContOk, Linked;
    MergeRecords(s, r, p, q, l, x);
    MergeLinked(s, r, p, q, l, x);
    LinkedNode(m, r, null, p);
    LinkedNode(m, r, null, l);
    assert m[p].kids[q] == l;
  }

  lemma MergeThenSplitLinks(s: Store, r: Node, p: Node, q: nat, l: Node, x: Node, pr: Rec, lr: Rec, k: nat)
    requires CanMerge(s, r, p, q, l, x) && k == |s[l].vals|
    ensures SplitLinks(MergeLinks(s, r, p, l, q, x, k + 1, pr, lr), r, p, l, q, x, k, s[p], s[l], s[x]) == s
  {
    hide MergeLinks, SplitLinks, Linked, NodeOk;
    var m := MergeLinks(s, r, p, l, q, x, k + 1, pr, lr);
    var s' := SplitLinks(m, r, p, l, q, x, k, s[p], s[l], s[x]);
    forall y | y in s
      ensures y in s' && s'[y] == s[y]
    {
      MergeThenSplitAt(s, r, p, q, l, x, pr, lr, k, y);
    }
    SplitKeys(m, r, p, l, q, x, k, s[p], s[l], s[x]);
    MergeKeys(s, r, p, l, q, x, k + 1, pr, lr);
    assert s'.Keys == s.Keys;
  }

  lemma MergeKeys(s: Store, r: Node, p: Node, l: Node, q: nat, x: Node, m: nat, pr: Rec, lr: Rec)
    ensures MergeLinks(s, r, p, l, q, x, m, pr, lr).Keys == s.Keys - {x}
  {
  }

  lemma MergeThenSplit(s: Store, r: Node, p: Node, q: nat, l: Node, x: Node)
    requires CanMerge(s, r, p, q, l, x)
    ensures CanSplit(MergeStore(s, r, p, q, l, x), r, p, q, l, x, |s[l].vals|)
    ensures SplitStore(MergeStore(s, r, p, q, l, x), r, p, q, l, x, |s[l].vals|) == s
  {
    hide MergeLinks, SplitLinks, Linked, UpOk, ContOk;
    MergeCanSplit(s, r, p, q, l, x);
    MergeRecords(s, r, p, q, l, x);
    MergeThenSplitLinks(s, r, p, q, l, x, MergeParent(s, p, q), MergeLeft(s, l, s[p].vals[q], x), |s[l].vals|);
  }

  lemma SplitKeys(s: Store, r: Node, p: Node, n: Node, q: nat, d: Node, k: nat, pr: Rec, nr: Rec, dr: Rec)
    ensures SplitLinks(s, r, p, n, q, d, k, pr, nr, dr).Keys == s.Keys + {d}
  {
  }

  /** Merging moves nothing. */
  lemma MergeOff(s: Store, r: Node, p: Node, q: nat, l: Node, x: Node, y: Node)
    requires CanMerge(s, r, p, q, l, x) && y in s && y != x
    ensures y in MergeStore(s, r, p, q, l, x) && Off(MergeStore(s, r, p, q, l, x), r, y) == Off(s, r, y)
    ensures Off(s, r, x) == Off(s, r, l) + |s[l].cont| + 1
  {
    var m, k := MergeStore(s, r, p, q, l, x), |s[l].vals|;
    assert y in m && l in m by {
      assert KidOk(s, r, p, l, q);
      assert KidOk(s, r, p, x, q + 1);
    }
    hide MergeStore, SplitStore, CanSplit;
    MergeThenSplit(s, r, p, q, l, x);
    MergeRecords(s, r, p, q, l, x);
    SplitOff(m, r, p, q, l, x, k, y);
    SplitOff(m, r, p, q, l, x, k, l);
    SplitOffNew(m, r, p, q, l, x, k);
  }

  lemma MergeRecords(s: Store, r: Node, p: Node, q: nat, l: Node, x: Node)
    requires CanMerge(s, r, p, q, l, x)
    ensures
      var m, k := MergeStore(s, r, p, q, l, x), |s[l].vals|;
      && l in m && k < |m[l].vals| && p in m && m[p] == MergeParent(s, p, q)
      && SplitLeft(m, l, k) == s[l] && SplitRight(m, l, k) == s[x]
      && SplitParent(m, p, q, l, x, k) == s[p]
  {
    hide Linked, Flat;
    var m, k := MergeStore(s, r, p, q, l, x), |s[l].vals|;
    assert KidOk(s, r, p, l, q);
    assert KidOk(s, r, p, x, q + 1);
    var e := m[l];
    assert e == MergeLeft(s, l, s[p].vals[q], x);
    assert m[p] == MergeParent(s, p, q);
    hide MergeStore, MergeLinks;
    MergeFlat(s, r, p, q, l, x);
    forall i | 0 <= i < |e.kids|
      ensures Conts(m, e.kids)[i] == Conts(s, e.kids)[i]
    {
      MergeKid(s, r, p, q, l, x, i);
    }
    assert e.vals[..k] == s[l].vals && e.vals[k + 1..] == s[x].vals;
    assert Take(e.kids, k + 1) == s[l].kids && Drop(e.kids, k + 1) == s[x].kids;
    assert Conts(m, s[l].kids) == Conts(m, e.kids)[..|s[l].kids|] == Conts(s, s[l].kids);
    assert Conts(m, s[x].kids) == Conts(m, e.kids)[|s[l].kids|..] == Conts(s, s[x].kids);
    FlatSame(s, m, s[l].vals, s[l].kids, l.leaf);
    FlatSame(s, m, s[x].vals, s[x].kids, l.leaf);
    assert Insert(m[p].vals, q, e.vals[k]) == s[p].vals;
    assert Insert(m[p].kids, q + 1, x) == s[p].kids;
  }
}
