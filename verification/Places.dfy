/** Every element has exactly one place in the tree, and a tree of a given height holds a least number of elements. */
module Places {
  import opened Entries
  import opened Weaving
  import opened Trees
  import opened Ranks
  import opened Levels
  import opened Steps
  import opened Cursors

  /** A node lies within its parent. */
  lemma Within(s: Store, r: Node, n: Node)
    requires Linked(s, r, null) && n in s && n != r
    ensures s[n].parent in s && s[s[n].parent].height == s[n].height + 1 <= s[r].height
    ensures Off(s, r, s[n].parent) <= Off(s, r, n)
    ensures Off(s, r, n) + |s[n].cont| <= Off(s, r, s[n].parent) + |s[s[n].parent].cont|
  {
    UpFromNode(s, r, null, n);
    ParentCont(s, r, null, n);
  }

  lemma SiblingsApart(s: Store, r: Node, a: Node, b: Node)
    requires Linked(s, r, null) && a in s && b in s && a != r && b != r && s[a].parent == s[b].parent
    requires s[a].position < s[b].position
    ensures Off(s, r, a) + |s[a].cont| < Off(s, r, b)
  {
    UpFromNode(s, r, null, a);
    UpFromNode(s, r, null, b);
    ParentCont(s, r, null, a);
    var p := s[a].parent;
    hide Linked, Before, Weave;
    BeforeGrows(s[p].vals, Conts(s, s[p].kids), s[a].position, s[b].position);
  }

  /** Two nodes of the same level lie apart, with at least one element between them. */
  lemma {:induction false} LevelApart(s: Store, r: Node, a: Node, b: Node)
    requires Linked(s, r, null) && a in s && b in s && a != b && s[a].height == s[b].height
    ensures Off(s, r, a) + |s[a].cont| < Off(s, r, b) || Off(s, r, b) + |s[b].cont| < Off(s, r, a)
    decreases if r in s then s[r].height - s[a].height else 0
  {
    if a == r { LeafRootAlone(s, r, b); }
    if b == r { LeafRootAlone(s, r, a); }
    Within(s, r, a);
    Within(s, r, b);
    Climb(s, r, a);
    Climb(s, r, b);
    if s[a].parent != s[b].parent {
      LevelApart(s, r, s[a].parent, s[b].parent);
    } else if s[a].position < s[b].position {
      SiblingsApart(s, r, a, b);
    } else if s[b].position < s[a].position {
      SiblingsApart(s, r, b, a);
    }
  }

  /** A value of a node is not among what lies below a lower node. */
  lemma {:induction false} Outside(s: Store, r: Node, n: Node, i: nat, x: Node)
    requires Linked(s, r, null) && n in s && i < |s[n].vals| && x in s && s[x].height < s[n].height
    ensures Rank(s, r, n, i) < Off(s, r, x) || Off(s, r, x) + |s[x].cont| <= Rank(s, r, n, i)
    decreases s[n].height - s[x].height
  {
    Edges(s, r, n);
    Within(s, r, x);
    var p := s[x].parent;
    if s[p].height < s[n].height {
      Outside(s, r, n, i, p);
    } else if p != n {
      RankWithin(s, r, n, i);
      LevelApart(s, r, p, n);
    } else {
      OwnKid(s, r, n, i, x);
    }
  }

  lemma OwnKid(s: Store, r: Node, n: Node, i: nat, x: Node)
    requires Linked(s, r, null) && n in s && i < |s[n].vals| && x in s && x != r && s[x].parent == n
    ensures Rank(s, r, n, i) < Off(s, r, x) || Off(s, r, x) + |s[x].cont| <= Rank(s, r, n, i)
  {
    Climb(s, r, x);
    var q := s[x].position;
    if i >= q {
      if i > q { RankGrows(s, r, n, q, i); }
    } else if i + 1 < q {
      RankGrows(s, r, n, i, q - 1);
    }
  }

  /** Two iterators at the same element are equal. */
  lemma PlaceUnique(s: Store, r: Node, it: Iter, it': Iter, k: int)
    requires Linked(s, r, null) && IsAt(s, r, it, k) && IsAt(s, r, it', k)
    ensures it == it'
  {
    var n, i, n', i' := it.node, it.position, it'.node, it'.position;
    RankWithin(s, r, n, i);
    RankWithin(s, r, n', i');
    if n == n' {
      if i < i' { RankGrows(s, r, n, i, i'); }
      if i' < i { RankGrows(s, r, n, i', i); }
    } else if s[n].height == s[n'].height {
      LevelApart(s, r, n, n');
    } else if s[n].height < s[n'].height {
      Outside(s, r, n', i', n);
    } else {
      Outside(s, r, n, i, n');
    }
  }

  /** Iterators denote the same element, or both the end, exactly if they are equal. */
  lemma DenotesUnique(s: Store, r: Node, m: nat, it: Iter, k: int, it': Iter, k': int)
    requires Linked(s, r, null) && Sized(s, r, m, null) && Denotes(s, r, it, k) && Denotes(s, r, it', k')
    ensures it == it' <==> k == k'
  {
    hide Linked, Sized, Off, Rank;
    if k == k' {
      if k == |s[r].cont| {
        EndUnique(s, r, m, it, it');
      } else {
        PlaceUnique(s, r, it, it', k);
      }
    }
  }

  lemma EndUnique(s: Store, r: Node, m: nat, it: Iter, it': Iter)
    requires Linked(s, r, null) && Sized(s, r, m, null) && IsEnd(s, it) && IsEnd(s, it')
    ensures it == it'
  {
    var n, n' := it.node, it'.node;
    Edges(s, r, n);
    Edges(s, r, n');
    LinkedNode(s, r, null, n);
    LinkedNode(s, r, null, n');
    NonEmpty(s, r, m, n);
    NonEmpty(s, r, m, n');
    if n != n' {
      LevelApart(s, r, n, n');
    }
  }

  // --- how much a tree of some height holds ---

  function Pow2(n: nat): nat {
    if n == 0 then 1 else 2 * Pow2(n - 1)
  }

  lemma {:induction false} NodeBound(s: Store, r: Node, m: nat, n: Node)
    requires Linked(s, r, null) && Sized(s, r, m, null) && n in s
    ensures |s[n].cont| + 1 >= Pow2(s[n].height + 1)
    decreases s[n].height
  {
    NonEmpty(s, r, m, n);
    LinkedNode(s, r, null, n);
    if n.leaf {
      assert Pow2(1) == 2;
    } else {
      var ks := Conts(s, s[n].kids);
      WeaveAround(s[n].vals, ks, 1);
      assert Before(s[n].vals, ks, 1) == ks[0] + [s[n].vals[0]];
      assert KidOk(s, r, n, s[n].kids[0], 0) && KidOk(s, r, n, s[n].kids[1], 1);
      NodeBound(s, r, m, s[n].kids[0]);
      NodeBound(s, r, m, s[n].kids[1]);
    }
  }
}
