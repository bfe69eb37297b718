/** Repairing recorded content along the path to the root after one node's own values changed. */
module Mending {
  import opened Entries
  import opened Weaving
  import opened Trees
  import opened Ranks

  ghost function Refill(s: Store, h: Node): Store
    requires h in s
  {
    s[h := s[h].(cont := Flat(s, h.leaf, s[h].vals, s[h].kids))]
  }

  ghost function Mend(s: Store, r: Node, h: Node): Store
    requires h in s
    decreases if r in s then s[r].height - s[h].height else 0
  {
    if HasUp(s, r, h) then Mend(Refill(s, h), r, s[h].parent) else Refill(s, h)
  }

  lemma RefillConts(s: Store, r: Node, h: Node, x: Node)
    requires Linked(s, r, h) && h in s && x in s && (h == r || x != s[h].parent)
    ensures Conts(Refill(s, h), s[x].kids) == Conts(s, s[x].kids)
  {
    LinkedNode(s, r, h, x);
    hide Linked, Flat;
    forall i | 0 <= i < |s[x].kids|
      ensures Conts(Refill(s, h), s[x].kids)[i] == Conts(s, s[x].kids)[i]
    {
      assert KidOk(s, r, x, s[x].kids[i], i);
    }
  }

  lemma RefillNode(s: Store, r: Node, h: Node, x: Node)
    requires Linked(s, r, h) && h in s && x in s
    ensures NodeOk(Refill(s, h), r, if h == r then null else s[h].parent, x)
  {
    var s1 := Refill(s, h);
    LinkedNode(s, r, h, x);
    if h == r || x != s[h].parent {
      RefillConts(s, r, h, x);
      FlatSame(s, s1, s[x].vals, s[x].kids, x.leaf);
    }
    hide Linked, Flat;
    RefillUp(s, r, h, x);
    hide UpOk;
    forall i | 0 <= i < |s[x].kids|
      ensures KidOk(s1, r, x, s[x].kids[i], i)
    {
      assert KidOk(s, r, x, s[x].kids[i], i);
    }
  }

  lemma RefillUp(s: Store, r: Node, h: Node, x: Node)
    requires r in s && h in s && x in s && UpOk(s, r, x)
    ensures UpOk(Refill(s, h), r, x)
  {
    hide Flat;
  }

  lemma RefillLinked(s: Store, r: Node, h: Node)
    requires Linked(s, r, h) && h in s
    ensures Linked(Refill(s, h), r, if h == r then null else s[h].parent)
  {
    var s1 := Refill(s, h);
    assert s1.Keys == s.Keys;
    assert s1[r].parent == s[r].parent && s1[s[r].parent].lspine;
    hide NodeOk;
    var h1 := if h == r then null else s[h].parent;
    forall x | x in s1
      ensures NodeOk(s1, r, h1, x)
    {
      RefillNode(s, r, h, x);
    }
  }

  /** Offsets do not depend on the content of lower nodes, nor on a node's own. */
  lemma {:induction false} RefillOff(s: Store, r: Node, h: Node, x: Node)
    requires Linked(s, r, h) && h in s && x in s && (s[x].height > s[h].height || x == h)
    ensures Off(Refill(s, h), r, x) == Off(s, r, x)
    decreases s[r].height - s[x].height
  {
    var s1 := Refill(s, h);
    if x != r {
      LinkedNode(s, r, h, x);
      var y := s[x].parent;
      LinkedNode(s, r, h, y);
      UpFromNode(s, r, h, x);
      RefillOff(s, r, h, y);
      assert HasUp(s1, r, x);
      var i := s[x].position;
      var ks := s[y].kids;
      forall j | 0 <= j < i
        ensures Conts(s1, ks)[j] == Conts(s, ks)[j]
      {
        assert KidOk(s, r, y, ks[j], j);
      }
      assert Conts(s1, ks)[..i] == Conts(s, ks)[..i];
      BeforePrefix(s[y].vals, Conts(s1, ks), s[y].vals, Conts(s, ks), i);
    }
  }

  ghost predicate OnlyCont(a: Rec, b: Rec) {
    a == b.(cont := a.cont)
  }

  /** The content of h's parent before and after h is refilled. */
  lemma RefillParent(s: Store, r: Node, h: Node)
    requires Linked(s, r, h) && h in s && h != r
    ensures
      var s1, p := Refill(s, h), s[h].parent;
      && HasUp(s, r, h) && p in s && |s[p].kids| == |s[p].vals| + 1 && s1[p] == s[p] && s1[r].cont == s[r].cont
      && var c := After(s[p].vals, Conts(s, s[p].kids), s[h].position);
      && s[p].cont == LeftOf(s, r, h) + s[h].cont + c
      && Flat(s1, p.leaf, s1[p].vals, s1[p].kids) == LeftOf(s, r, h) + Flat(s, h.leaf, s[h].vals, s[h].kids) + c
  {
    UpFromNode(s, r, h, h);
    LinkedNode(s, r, h, h);
    var s1, p, i := Refill(s, h), s[h].parent, s[h].position;
    LinkedNode(s, r, h, p);
    var cs, cs1 := Conts(s, s[p].kids), Conts(s1, s[p].kids);
    forall j | 0 <= j < |cs|
      ensures cs1[j] == (if j == i then s1[h].cont else cs[j])
    {
      assert KidOk(s, r, p, s[p].kids[j], j);
    }
    ParentCont(s, r, h, h);
    hide Linked, Weave, Before, NodeOk;
    WeaveReplace(s[p].vals, cs, i, cs1);
  }

  lemma Reassemble<T>(w: seq<T>, o: nat, pc: seq<T>, a: seq<T>, b: seq<T>, c: seq<T>, x: seq<T>)
    requires o + |pc| <= |w| && w[o..o + |pc|] == pc == a + b + c
    ensures w[..o] + (a + x + c) + w[o + |pc|..] == w[..o + |a|] + x + w[o + |a| + |b|..]
  {
    assert w == w[..o] + pc + w[o + |pc|..];
    assert w[..o + |a|] == w[..o] + a;
    assert w[o + |a| + |b|..] == c + w[o + |pc|..];
  }

  /** Mending above h leaves what precedes h alone. */
  lemma MendLeftOf(s: Store, m: Store, r: Node, h: Node)
    requires Linked(s, r, h) && h in s && h != r && m.Keys == s.Keys
    requires forall x :: x in s ==> OnlyCont(m[x], s[x])
    requires forall x :: x in s && x != h && s[x].height <= s[h].height ==> m[x] == s[x]
    ensures HasUp(s, r, h) && HasUp(m, r, h) && m[h].parent == s[h].parent && LeftOf(m, r, h) == LeftOf(s, r, h)
  {
    UpFromNode(s, r, h, h);
    LinkedNode(s, r, h, h);
    var p, i := s[h].parent, s[h].position;
    LinkedNode(s, r, h, p);
    assert OnlyCont(m[p], s[p]) && OnlyCont(m[h], s[h]) && OnlyCont(m[r], s[r]);
    var cs, cs1 := Conts(s, s[p].kids), Conts(m, s[p].kids);
    forall j | 0 <= j < i
      ensures cs1[j] == cs[j]
    {
      assert KidOk(s, r, p, s[p].kids[j], j);
    }
    assert cs[..i] == cs1[..i];
    BeforePrefix(s[p].vals, cs, s[p].vals, cs1, i);
  }

  lemma {:induction false} MendFrame(s: Store, r: Node, h: Node)
    requires h in s
    ensures Mend(s, r, h).Keys == s.Keys
    ensures forall x :: x in s ==> OnlyCont(Mend(s, r, h)[x], s[x])
    ensures forall x :: x in s && x != h && s[x].height <= s[h].height ==> Mend(s, r, h)[x] == s[x]
    ensures Mend(s, r, h)[h].cont == Flat(s, h.leaf, s[h].vals, s[h].kids)
    decreases if r in s then s[r].height - s[h].height else 0
  {
    hide Flat;
    if HasUp(s, r, h) {
      MendFrame(Refill(s, h), r, s[h].parent);
    }
  }

  /** After mending, recorded content is right everywhere. */
  lemma {:induction false} MendLinked(s: Store, r: Node, h: Node)
    requires Linked(s, r, h) && h in s
    ensures Linked(Mend(s, r, h), r, null)
    decreases s[r].height - s[h].height
  {
    RefillLinked(s, r, h);
    if h != r {
      UpFromNode(s, r, h, h);
      hide Linked, Flat;
      MendLinked(Refill(s, h), r, s[h].parent);
    }
  }

  lemma {:induction false} MendOff(s: Store, r: Node, h: Node)
    requires Linked(s, r, h) && h in s
    ensures Off(Mend(s, r, h), r, h) == Off(s, r, h)
    decreases s[r].height - s[h].height
  {
    RefillLinked(s, r, h);
    if h != r {
      UpFromNode(s, r, h, h);
      var p, s1 := s[h].parent, Refill(s, h);
      MendOff(s1, r, p);
      RefillOff(s, r, h, p);
      MendFrame(s, r, h);
      MendLeftOf(s, Mend(s1, r, p), r, h);
    }
  }

  /** Changing the parent's content where it lies is changing h's content where it lies. */
  lemma MendRootStep(s: Store, r: Node, h: Node, w': seq<Entry>)
    requires Linked(s, r, h) && h in s && h != r && s[h].parent in s
    requires
      var s1, p := Refill(s, h), s[h].parent;
      && Off(s, r, p) + |s[p].cont| <= |s[r].cont|
      && w' == s[r].cont[..Off(s, r, p)] + Flat(s1, p.leaf, s1[p].vals, s1[p].kids)
        + s[r].cont[Off(s, r, p) + |s[p].cont|..]
    ensures Off(s, r, h) + |s[h].cont| <= |s[r].cont|
    ensures w' == s[r].cont[..Off(s, r, h)] + Flat(s, h.leaf, s[h].vals, s[h].kids)
      + s[r].cont[Off(s, r, h) + |s[h].cont|..]
  {
    hide Linked, Flat, Before, NodeOk;
    RefillParent(s, r, h);
    var p := s[h].parent;
    SliceAt(s, r, h, h);
    SliceAt(s, r, h, p);
    assert Off(s, r, h) == Off(s, r, p) + |LeftOf(s, r, h)|;
    var c := After(s[p].vals, Conts(s, s[p].kids), s[h].position);
    hide *;
    Reassemble(s[r].cont, Off(s, r, p), s[p].cont, LeftOf(s, r, h), s[h].cont, c,
      Flat(s, h.leaf, s[h].vals, s[h].kids));
  }

  /** The whole order changes exactly where h's content lay. */
  lemma {:induction false} MendRoot(s: Store, r: Node, h: Node)
    requires Linked(s, r, h) && h in s
    ensures r in Mend(s, r, h)
    ensures Off(s, r, h) + |s[h].cont| <= |s[r].cont|
    ensures Mend(s, r, h)[r].cont ==
      s[r].cont[..Off(s, r, h)] + Flat(s, h.leaf, s[h].vals, s[h].kids) + s[r].cont[Off(s, r, h) + |s[h].cont|..]
    decreases s[r].height - s[h].height
  {
    var s1 := Refill(s, h);
    RefillLinked(s, r, h);
    if h != r {
      UpFromNode(s, r, h, h);
      var p := s[h].parent;
      assert s1[r] == s[r] && s1[p] == s[p] && s1[p].height > s[h].height && r in s1;
      RefillOff(s, r, h, p);
      hide Linked, Flat, Off, Refill;
      MendRoot(s1, r, p);
      MendRootStep(s, r, h, Mend(s1, r, p)[r].cont);
    } else {
      SliceAt(s, r, h, h);
    }
  }
}
