/** Changing the values of one node: what it means for the order of the whole tree. */
module LeafSteps {
  import opened Entries
  import opened Weaving
  import opened Trees
  import opened Ranks
  import opened Levels
  import opened Mending
  import opened Steps
  import opened RootSurgery
  import opened Cursors

  lemma PutHole(s: Store, r: Node, n: Node, vals: seq<Entry>, x: Node)
    requires Linked(s, r, null) && n in s && x in s && (n.leaf || |vals| == |s[n].vals|)
    ensures NodeOk(PutVals(s, n, vals), r, n, x)
  {
    LinkedNode(s, r, null, x);
    var s' := PutVals(s, n, vals);
    hide Linked;
    forall i | 0 <= i < |s[x].kids|
      ensures KidOk(s', r, x, s[x].kids[i], i) && Conts(s', s[x].kids)[i] == Conts(s, s[x].kids)[i]
    {
      assert KidOk(s, r, x, s[x].kids[i], i);
    }
    FlatSame(s, s', s[x].vals, s[x].kids, x.leaf);
  }

  /** With other values in n, only n's recorded content (and what is above it) is out of date. */
  lemma PutLinked(s: Store, r: Node, n: Node, vals: seq<Entry>)
    requires Linked(s, r, null) && n in s && (n.leaf || |vals| == |s[n].vals|)
    ensures Linked(PutVals(s, n, vals), r, n)
  {
    var s' := PutVals(s, n, vals);
    assert s'.Keys == s.Keys;
    assert s'[r].parent == s[r].parent && s'[s[r].parent].lspine;
    hide NodeOk;
    forall x | x in s'
      ensures NodeOk(s', r, n, x)
    {
      PutHole(s, r, n, vals, x);
    }
  }

  /** Stores that agree in links and in the number of values of each node. */
  ghost predicate SameShape(s: Store, s': Store) {
    s'.Keys == s.Keys && forall x :: x in s ==>
      SameLink(s'[x], s[x]) && s'[x].kids == s[x].kids && |s'[x].vals| == |s[x].vals|
  }

  lemma {:induction false} BeforeSizes(v: seq<Entry>, ks: seq<seq<Entry>>, v': seq<Entry>, ks': seq<seq<Entry>>, i: nat)
    requires i <= |v| == |v'| && i <= |ks| == |ks'| && forall j :: 0 <= j < |ks| ==> |ks[j]| == |ks'[j]|
    ensures |Before(v, ks, i)| == |Before(v', ks', i)|
  {
    if i > 0 {
      BeforeSizes(v, ks, v', ks', i - 1);
    }
  }

  /** Equally shaped trees hold equally much below each node ... */
  lemma {:induction false} ContSizes(s: Store, s': Store, r: Node, n: Node)
    requires SameShape(s, s') && Linked(s, r, null) && Linked(s', r, null) && n in s
    ensures |s'[n].cont| == |s[n].cont|
    decreases s[n].height
  {
    LinkedNode(s, r, null, n);
    LinkedNode(s', r, null, n);
    if !n.leaf {
      forall j | 0 <= j < |s[n].kids|
        ensures s[n].kids[j] in s && |s'[s[n].kids[j]].cont| == |s[s[n].kids[j]].cont|
      {
        Descend(s, r, n, j);
        ContSizes(s, s', r, s[n].kids[j]);
      }
      BeforeSizes(s[n].vals, Conts(s, s[n].kids), s'[n].vals, Conts(s', s[n].kids), |s[n].vals|);
    }
  }

  /** ... so each node lies at the same place. */
  lemma {:induction false} OffSizes(s: Store, s': Store, r: Node, x: Node)
    requires SameShape(s, s') && Linked(s, r, null) && Linked(s', r, null) && x in s
    ensures Off(s', r, x) == Off(s, r, x)
    decreases s[r].height - s[x].height
  {
    if x != r {
      Climb(s, r, x);
      Climb(s', r, x);
      var p := s[x].parent;
      OffSizes(s, s', r, p);
      UpFromNode(s, r, null, x);
      UpFromNode(s', r, null, x);
      var ks := Conts(s, s[p].kids);
      forall j | 0 <= j < |ks|
        ensures |Conts(s', s[p].kids)[j]| == |ks[j]|
      {
        Descend(s, r, p, j);
        ContSizes(s, s', r, s[p].kids[j]);
      }
      BeforeSizes(s[p].vals, ks, s'[p].vals, Conts(s', s[p].kids), s[x].position);
    }
  }

  /** Offsets look only at higher nodes and their contents: not at the values of a leaf. */
  lemma {:induction false} OffPut(s: Store, r: Node, n: Node, vals: seq<Entry>, x: Node)
    requires Linked(s, r, null) && n in s && x in s && (n.leaf || |vals| == |s[n].vals|)
    ensures Off(PutVals(s, n, vals), r, x) == Off(s, r, x)
    decreases s[r].height - s[x].height
  {
    hide *;
    if x == r {
      LinkedFirst(s, r, null);
      OffRoot(s, r);
      PutRoot(s, r, n, vals);
    } else {
      UpFacts(s, r, null, x);
      OffPut(s, r, n, vals, s[x].parent);
      PutLeft(s, r, n, vals, x);
      OffUp(PutVals(s, n, vals), r, x);
    }
  }

  lemma PutRoot(s: Store, r: Node, n: Node, vals: seq<Entry>)
    requires r in s && n in s
    ensures Off(PutVals(s, n, vals), r, r) == 0
  {
  }

  lemma OffUp(s: Store, r: Node, n: Node)
    requires HasUp(s, r, n)
    ensures Off(s, r, n) == Off(s, r, s[n].parent) + |LeftOf(s, r, n)|
  {
  }

  lemma PutLeft(s: Store, r: Node, n: Node, vals: seq<Entry>, x: Node)
    requires Linked(s, r, null) && n in s && x in s && x != r && (n.leaf || |vals| == |s[n].vals|) && HasUp(s, r, x)
    ensures
      var s' := PutVals(s, n, vals);
      HasUp(s', r, x) && s'[x].parent == s[x].parent && |LeftOf(s', r, x)| == |LeftOf(s, r, x)|
  {
    var s', p := PutVals(s, n, vals), s[x].parent;
    LinkedNode(s, r, null, x);
    LinkedNode(s, r, null, p);
    hide Linked, ContOk;
    assert Conts(s', s[p].kids) == Conts(s, s[p].kids);
    BeforeSizes(s[p].vals, Conts(s, s[p].kids), s'[p].vals, Conts(s, s[p].kids), s[x].position);
  }

  /** The store after n's values have been replaced and the recorded contents above brought up to date. */
  ghost function Replaced(s: Store, r: Node, n: Node, vals: seq<Entry>): Store
    requires n in s
  {
    Mend(PutVals(s, n, vals), r, n)
  }

  lemma ReplacedRecs(s: Store, r: Node, n: Node, vals: seq<Entry>)
    requires n in s
    ensures Replaced(s, r, n, vals).Keys == s.Keys
    ensures forall x :: x in s ==> OnlyCont(Replaced(s, r, n, vals)[x], PutVals(s, n, vals)[x])
    ensures forall x :: x in s ==> Replaced(s, r, n, vals)[x].height == s[x].height
  {
    MendFrame(PutVals(s, n, vals), r, n);
    forall x | x in s
      ensures Replaced(s, r, n, vals)[x].height == s[x].height
    {
      assert OnlyCont(Replaced(s, r, n, vals)[x], PutVals(s, n, vals)[x]);
    }
  }

  lemma ReplacedLinked(s: Store, r: Node, n: Node, vals: seq<Entry>)
    requires Linked(s, r, null) && n in s && (n.leaf || |vals| == |s[n].vals|)
    ensures Linked(Replaced(s, r, n, vals), r, null)
    ensures Off(Replaced(s, r, n, vals), r, n) == Off(s, r, n)
    ensures Off(s, r, n) + |s[n].cont| <= |s[r].cont| && r in Replaced(s, r, n, vals)
    ensures
      var w, o := s[r].cont, Off(s, r, n);
      Replaced(s, r, n, vals)[r].cont == w[..o] + Flat(s, n.leaf, vals, s[n].kids) + w[o + |s[n].cont|..]
  {
    hide *;
    var s1 := PutVals(s, n, vals);
    PutFlat(s, r, n, vals);
    SliceAt(s, r, null, n);
    PutLinked(s, r, n, vals);
    OffPut(s, r, n, vals, n);
    MendLinked(s1, r, n);
    MendOff(s1, r, n);
    MendRoot(s1, r, n);
  }

  lemma PutFlat(s: Store, r: Node, n: Node, vals: seq<Entry>)
    requires Linked(s, r, null) && n in s
    ensures
      var s1 := PutVals(s, n, vals);
      && Replaced(s, r, n, vals) == Mend(s1, r, n) && r in s && r in s1 && s1[r].cont == s[r].cont
      && n in s1 && s1[n].cont == s[n].cont && s1[n].vals == vals && s1[n].kids == s[n].kids
      && Flat(s1, n.leaf, vals, s[n].kids) == Flat(s, n.leaf, vals, s[n].kids)
  {
    var s1 := PutVals(s, n, vals);
    LinkedNode(s, r, null, n);
    hide Linked, Mend, Flat, ContOk, UpOk;
    forall i | 0 <= i < |s[n].kids|
      ensures Conts(s1, s[n].kids)[i] == Conts(s, s[n].kids)[i]
    {
      assert KidOk(s, r, n, s[n].kids[i], i);
    }
    FlatSame(s, s1, vals, s[n].kids, n.leaf);
  }

  lemma ReplacedSized(s: Store, r: Node, n: Node, vals: seq<Entry>, m: nat, e: Node?, e': Node?)
    requires n in s && Sized(s, r, m, e) && |vals| <= n.maxCount && (e == null || e == n)
    requires (e' == n || (e' == null && 0 < |vals|))
    ensures Sized(Replaced(s, r, n, vals), r, m, e')
  {
    var s' := Replaced(s, r, n, vals);
    ReplacedRecs(s, r, n, vals);
    hide Replaced, Sized;
    forall x | x in s'
      ensures SizeOk(x, s'[x], r, m, e')
    {
      assert OnlyCont(s'[x], PutVals(s, n, vals)[x]);
      SizeAt(s, r, m, e, x);
    }
    SizedAll(s', r, m, e');
  }

  lemma ReplacedEnds(s: Store, r: Node, n: Node, vals: seq<Entry>, rm: Node?)
    requires n in s && IsRightmost(s, rm)
    ensures IsRightmost(Replaced(s, r, n, vals), rm)
  {
    ReplacedRecs(s, r, n, vals);
    hide Replaced;
    assert OnlyCont(Replaced(s, r, n, vals)[rm], PutVals(s, n, vals)[rm]);
  }

  // --- one value into a leaf ---

  lemma ReplacedLeaf(s: Store, r: Node, n: Node, vals: seq<Entry>)
    requires Linked(s, r, null) && n in s && n.leaf
    ensures
      var s' := Replaced(s, r, n, vals);
      r in s && r in s' && n in s' && Linked(s', r, null) && Off(s', r, n) == Off(s, r, n) && s'[n].vals == vals
    ensures
      var w, o := s[r].cont, Off(s, r, n);
      && o + |s[n].vals| <= |w| && w[o..o + |s[n].vals|] == s[n].vals
      && Replaced(s, r, n, vals)[r].cont == w[..o] + vals + w[o + |s[n].vals|..]
  {
    LeafCont(s, r, n);
    SliceAt(s, r, null, n);
    ReplacedLinked(s, r, n, vals);
    ReplacedRecs(s, r, n, vals);
    assert OnlyCont(Replaced(s, r, n, vals)[n], PutVals(s, n, vals)[n]);
    hide Replaced, Linked, Off;
  }

  lemma InsertStep(s: Store, r: Node, m: nat, n: Node, i: nat, x: Entry, k: nat)
    requires Linked(s, r, null) && Sized(s, r, m, n) && n in s && n.leaf && i <= |s[n].vals| < n.maxCount
    requires k == Off(s, r, n) + i
    ensures
      var s' := Replaced(s, r, n, Insert(s[n].vals, i, x));
      && r in s && k <= |s[r].cont| && Linked(s', r, null) && Sized(s', r, m, null) && r in s'
      && s'[r].cont == Insert(s[r].cont, k, x)
      && IsAt(s', r, Iter(n, i), k)
  {
    var vals := Insert(s[n].vals, i, x);
    assert |vals| == |s[n].vals| + 1;
    hide *;
    ReplacedLeaf(s, r, n, vals);
    ReplacedSized(s, r, n, vals, m, n, null);
    InsertWithin(s[r].cont, Off(s, r, n), s[n].vals, i, x, k);
    IsIter(Replaced(s, r, n, vals), r, Iter(n, i), k);
  }

  lemma InsertWithin<T>(w: seq<T>, o: nat, c: seq<T>, i: nat, x: T, k: nat)
    requires o + |c| <= |w| && w[o..o + |c|] == c && i <= |c| && k == o + i
    ensures k <= |w| && w[..o] + Insert(c, i, x) + w[o + |c|..] == Insert(w, k, x)
  {
    assert w == w[..o] + c + w[o + |c|..];
    assert w[..o + i] == w[..o] + c[..i];
    assert w[o + i..] == c[i..] + w[o + |c|..];
  }

  // --- one value out of a leaf ---

  lemma RemoveStep(s: Store, r: Node, m: nat, n: Node, i: nat, k: nat)
    requires Linked(s, r, null) && Sized(s, r, m, null) && n in s && n.leaf && i < |s[n].vals| && k == Off(s, r, n) + i
    ensures
      var s' := Replaced(s, r, n, Remove(s[n].vals, i));
      && r in s && k < |s[r].cont| && Linked(s', r, null) && Sized(s', r, m, n) && r in s'
      && s'[r].cont == Remove(s[r].cont, k)
      && IsGap(s', r, Iter(n, i), k)
  {
    var vals := Remove(s[n].vals, i);
    assert |vals| == |s[n].vals| - 1;
    SizeAt(s, r, m, null, n);
    hide *;
    ReplacedLeaf(s, r, n, vals);
    ReplacedSized(s, r, n, vals, m, null, n);
    RemoveWithin(s[r].cont, Off(s, r, n), s[n].vals, i, k);
    IsGapHere(Replaced(s, r, n, vals), r, Iter(n, i));
  }

  lemma RemoveWithin<T>(w: seq<T>, o: nat, c: seq<T>, i: nat, k: nat)
    requires o + |c| <= |w| && w[o..o + |c|] == c && i < |c| && k == o + i
    ensures k < |w| && w[..o] + Remove(c, i) + w[o + |c|..] == Remove(w, k)
  {
    assert w == w[..o] + c + w[o + |c|..];
    assert w[..o + i] == w[..o] + c[..i];
    assert w[o + i + 1..] == c[i + 1..] + w[o + |c|..];
  }

  // --- another value in an internal node ---

  lemma WeaveUpdate(v: seq<Entry>, ks: seq<seq<Entry>>, i: nat, x: Entry)
    requires |ks| == |v| + 1 && i < |v|
    ensures |Before(v, ks, i)| + |ks[i]| < |Weave(v, ks)|
    ensures Weave(v[i := x], ks) == Weave(v, ks)[|Before(v, ks, i)| + |ks[i]| := x]
  {
    var v' := v[i := x];
    assert v'[..i] == v[..i] && v'[i + 1..] == v[i + 1..];
    BeforePrefix(v, ks, v', ks, i);
    WeaveAt(v, ks, i + 1);
    WeaveAt(v', ks, i + 1);
    assert Before(v, ks, i + 1) == Before(v, ks, i) + ks[i] + [v[i]];
    assert Before(v', ks, i + 1) == Before(v, ks, i) + ks[i] + [x];
  }

  lemma UpdateWithin<T>(w: seq<T>, o: nat, c: seq<T>, j: nat, x: T)
    requires o + |c| <= |w| && w[o..o + |c|] == c && j < |c|
    ensures w[..o] + c[j := x] + w[o + |c|..] == w[o + j := x]
  {
    assert w == w[..o] + c + w[o + |c|..];
  }

  lemma ReplacedShape(s: Store, r: Node, n: Node, vals: seq<Entry>)
    requires n in s && |vals| == |s[n].vals|
    ensures SameShape(s, Replaced(s, r, n, vals))
  {
    ReplacedRecs(s, r, n, vals);
    var s1, s' := PutVals(s, n, vals), Replaced(s, r, n, vals);
    hide Replaced;
    forall x | x in s
      ensures SameLink(s'[x], s[x]) && s'[x].kids == s[x].kids && |s'[x].vals| == |s[x].vals|
    {
      assert OnlyCont(s'[x], s1[x]);
    }
  }

  lemma UpdateLeaf(s: Store, r: Node, n: Node, vals: seq<Entry>, y: Node)
    requires Linked(s, r, null) && n in s && !n.leaf && y in s && y.leaf
    ensures y in Replaced(s, r, n, vals) && Replaced(s, r, n, vals)[y] == s[y]
  {
    MendFrame(PutVals(s, n, vals), r, n);
    LinkedNode(s, r, null, n);
    LinkedNode(s, r, null, y);
  }

  /** Values of an internal node do not matter to the leaves. */
  lemma UpdateLeaves(s: Store, r: Node, n: Node, vals: seq<Entry>)
    requires Linked(s, r, null) && n in s && !n.leaf && |vals| == |s[n].vals|
    ensures
      var s' := Replaced(s, r, n, vals);
      forall y :: y in s && y.leaf ==> y in s' && s'[y] == s[y] && Off(s', r, y) == Off(s, r, y)
  {
    hide *;
    var s' := Replaced(s, r, n, vals);
    ReplacedLinked(s, r, n, vals);
    ReplacedShape(s, r, n, vals);
    forall y | y in s && y.leaf
      ensures y in s' && s'[y] == s[y] && Off(s', r, y) == Off(s, r, y)
    {
      UpdateLeaf(s, r, n, vals, y);
      OffSizes(s, s', r, y);
    }
  }

  /** What a value of an internal node is, within the node's own content and in the whole order. */
  lemma UpdateFlat(s: Store, r: Node, n: Node, i: nat, x: Entry, k: nat)
    requires Linked(s, r, null) && n in s && !n.leaf && i < |s[n].vals| && k == Rank(s, r, n, i)
    ensures Off(s, r, n) <= k < Off(s, r, n) + |s[n].cont|
    ensures Flat(s, n.leaf, s[n].vals[i := x], s[n].kids) == s[n].cont[k - Off(s, r, n) := x]
  {
    LinkedNode(s, r, null, n);
    hide Linked, Off, Conts;
    WeaveUpdate(s[n].vals, Conts(s, s[n].kids), i, x);
  }

  lemma UpdateStep(s: Store, r: Node, m: nat, n: Node, i: nat, x: Entry, k: nat)
    requires Linked(s, r, null) && Sized(s, r, m, null) && n in s && !n.leaf && i < |s[n].vals| && k == Rank(s, r, n, i)
    ensures
      var s' := Replaced(s, r, n, s[n].vals[i := x]);
      && r in s && k < |s[r].cont| && Linked(s', r, null) && Sized(s', r, m, null) && r in s'
      && s'[r].cont == s[r].cont[k := x]
      && forall y :: y in s && y.leaf ==> y in s' && s'[y] == s[y] && Off(s', r, y) == Off(s, r, y)
  {
    var vals := s[n].vals[i := x];
    SizeAt(s, r, m, null, n);
    hide *;
    RankAt(s, r, n, i);
    SliceAt(s, r, null, n);
    ReplacedLinked(s, r, n, vals);
    ReplacedSized(s, r, n, vals, m, null, null);
    UpdateLeaves(s, r, n, vals);
    UpdateFlat(s, r, n, i, x, k);
    UpdateWithin(s[r].cont, Off(s, r, n), s[n].cont, k - Off(s, r, n), x);
  }

  // --- room in a small leaf root ---

  lemma GrowStep(s: Store, r: Node, n: Node, m: nat)
    requires Linked(s, r, null) && r.leaf && n.leaf && 0 < |s[r].vals| <= n.maxCount <= m
    ensures
      var s' := GrowRoot(s, r, n);
      && s'.Keys == {n} && s.Keys == {r} && Linked(s', n, null) && Sized(s', n, m, null) && s'[n].cont == s[r].cont
      && s'[n].vals == s[r].vals
      && Off(s', n, n) == 0 == Off(s, r, r) && s'[n].height == s[r].height
  {
    LeafRootOnly(s, r);
    LinkedNode(s, r, null, r);
    var s' := GrowRoot(s, r, n);
    assert NodeOk(s', n, null, n);
    assert SizeOk(n, s'[n], n, m, null);
  }

  /** A node that is not small and not the root is exempt from nothing. */
  lemma FullNode(s: Store, r: Node, m: nat, n: Node)
    requires Linked(s, r, null) && Sized(s, r, m, n) && n in s && 0 < |s[n].vals|
    ensures Sized(s, r, m, null)
    ensures n.maxCount < m ==> n == r && r.leaf
  {
    SizeAt(s, r, m, n, n);
    forall x | x in s
      ensures SizeOk(x, s[x], r, m, null)
    {
      SizeAt(s, r, m, n, x);
    }
    SizedAll(s, r, m, null);
  }

  /** A leaf below an internal root has full capacity. */
  lemma LeafCapacity(s: Store, r: Node, m: nat, e: Node?, n: Node)
    requires Sized(s, r, m, e) && n in s && n.leaf && !r.leaf
    ensures n.maxCount == m && n != r
  {
    SizeAt(s, r, m, e, n);
  }

  /** The gap found by rebalancing or splitting is the gap asked for. */
  lemma RoomGap(s: Store, r: Node, n: Node, i: nat, s': Store, r': Node, n': Node, i': nat, k: nat)
    requires n.leaf && SameGap(s, r, n, i, s', r', n', i') && IsGap(s, r, Iter(n, i), k)
    ensures n' in s' && n'.leaf && i' <= |s'[n'].vals| && IsGap(s', r', Iter(n', i'), k)
  {
  }
}
