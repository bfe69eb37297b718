/** Entries, ordered sequences of entries, and the in-order "weave" of a node's values with the sequences below its
    children. */
module Entries {

  type Key = k: int | 0 <= k < 0x1_0000_0000_0000_0000

  datatype IndexEntry = IndexEntry(page: nat, lru: nat)

  datatype Entry = Entry(key: Key, data: IndexEntry)

  const BLANK := Entry(0, IndexEntry(0, 0))

  ghost predicate Sorted(s: seq<Entry>) {
    forall i, j :: 0 <= i < j < |s| ==> s[i].key < s[j].key
  }

  function Insert<T>(s: seq<T>, i: nat, x: T): (r: seq<T>)
    requires i <= |s|
    ensures |r| == |s| + 1
  {
    s[..i] + [x] + s[i..]
  }

  lemma InsertAt<T>(s: seq<T>, i: nat, x: T, j: nat)
    requires i <= |s| && j <= |s|
    ensures Insert(s, i, x)[j] == if j < i then s[j] else if j == i then x else s[j - 1]
  {
  }

  lemma InsertMeans<T>(s: seq<T>, i: nat, x: T)
    requires i <= |s|
    ensures Insert(s, i, x) == s[..i] + [x] + s[i..]
  {
  }

  lemma RemoveMeans<T>(s: seq<T>, i: nat)
    requires i < |s|
    ensures Remove(s, i) == s[..i] + s[i + 1..]
  {
  }

  function Remove<T>(s: seq<T>, i: nat): (r: seq<T>)
    requires i < |s|
    ensures |r| == |s| - 1
  {
    s[..i] + s[i + 1..]
  }
}

module Weaving {
  import opened Entries
  import opened Sequences

  /** Everything in order before child i: ks[0] v[0] ks[1] v[1] ... ks[i-1] v[i-1]. */
  function Before(v: seq<Entry>, ks: seq<seq<Entry>>, i: nat): seq<Entry>
    requires i <= |v| && i <= |ks|
  {
    if i == 0 then [] else Before(v, ks, i - 1) + ks[i - 1] + [v[i - 1]]
  }

  function Weave(v: seq<Entry>, ks: seq<seq<Entry>>): seq<Entry>
    requires |ks| == |v| + 1
  {
    Before(v, ks, |v|) + ks[|v|]
  }

  /** Only the first i values and children matter. */
  lemma {:induction false} BeforePrefix(v: seq<Entry>, ks: seq<seq<Entry>>, v': seq<Entry>, ks': seq<seq<Entry>>,
        i: nat)
    requires i <= |v| && i <= |ks| && i <= |v'| && i <= |ks'|
    requires v[..i] == v'[..i] && ks[..i] == ks'[..i]
    ensures Before(v, ks, i) == Before(v', ks', i)
  {
    if i > 0 {
      assert v[i - 1] == v[..i][i - 1] == v'[..i][i - 1] == v'[i - 1];
      assert ks[i - 1] == ks[..i][i - 1] == ks'[..i][i - 1] == ks'[i - 1];
      assert v[..i - 1] == v[..i][..i - 1] == v'[..i - 1];
      assert ks[..i - 1] == ks[..i][..i - 1] == ks'[..i - 1];
      BeforePrefix(v, ks, v', ks', i - 1);
    }
  }

  lemma {:induction false} BeforeSplit(v: seq<Entry>, ks: seq<seq<Entry>>, i: nat, j: nat)
    requires i + j <= |v| && i + j <= |ks|
    ensures Before(v, ks, i + j) == Before(v, ks, i) + Before(v[i..], ks[i..], j)
  {
    if j > 0 {
      BeforeSplit(v, ks, i, j - 1);
    }
  }

  /** Weaving a concatenation: this one fact carries splits, merges and rebalancing. */
  lemma {:induction false} WeaveConcat(v: seq<Entry>, ks: seq<seq<Entry>>, d: Entry, v': seq<Entry>,
        ks': seq<seq<Entry>>)
    requires |ks| == |v| + 1 && |ks'| == |v'| + 1
    ensures Weave(v + [d] + v', ks + ks') == Weave(v, ks) + [d] + Weave(v', ks')
  {
    var w, c := v + [d] + v', ks + ks';
    BeforeSplit(w, c, |v| + 1, |v'|);
    assert w[|v| + 1..] == v' && c[|v| + 1..] == ks';
    BeforePrefix(w, c, v, ks, |v|);
  }

  /** A whole weave seen from child i. */
  lemma {:induction false} WeaveAt(v: seq<Entry>, ks: seq<seq<Entry>>, i: nat)
    requires |ks| == |v| + 1 && i <= |v|
    ensures Weave(v, ks) == Before(v, ks, i) + Weave(v[i..], ks[i..])
  {
    BeforeSplit(v, ks, i, |v| - i);
  }

  /** Replacing child sequence a + [m] + b by two children a and b around the new value m. */
  lemma {:induction false} WeaveSplit(v: seq<Entry>, ks: seq<seq<Entry>>, q: nat, a: seq<Entry>, m: Entry,
        b: seq<Entry>)
    requires |ks| == |v| + 1 && q <= |v| && ks[q] == a + [m] + b
    ensures Weave(Insert(v, q, m), Insert(ks, q + 1, b)[q := a]) == Weave(v, ks)
  {
    var w, c := Insert(v, q, m), Insert(ks, q + 1, b)[q := a];
    WeaveAt(v, ks, q);
    WeaveAt(w, c, q + 1);
    BeforePrefix(w, c, v, ks, q);
    assert w[q + 1..] == v[q..];
    var t, u := v[q..], ks[q..];
    WeaveHead(t, u);
    assert c[q + 1..][1..] == u[1..];
    WeaveHead(t, c[q + 1..]);
  }

  /** A weave starts with its first child; the rest does not depend on it. */
  lemma {:induction false} WeaveHead(v: seq<Entry>, ks: seq<seq<Entry>>)
    requires |ks| == |v| + 1
    ensures Weave(v, ks) == ks[0] + WeaveTail(v, ks[1..])
  {
    if v != [] {
      WeaveAt(v, ks, 1);
      assert Before(v, ks, 1) == ks[0] + [v[0]];
    }
  }

  function WeaveTail(v: seq<Entry>, ks: seq<seq<Entry>>): seq<Entry>
    requires |ks| == |v|
  {
    if v == [] then [] else [v[0]] + Weave(v[1..], ks)
  }

  /** Joining two neighbouring children and the value between them into one child. */
  lemma WeaveMerge(v: seq<Entry>, ks: seq<seq<Entry>>, q: nat)
    requires |ks| == |v| + 1 && q < |v|
    ensures Weave(Remove(v, q), Remove(ks, q + 1)[q := ks[q] + [v[q]] + ks[q + 1]]) == Weave(v, ks)
  {
    var v', ks' := Remove(v, q), Remove(ks, q + 1)[q := ks[q] + [v[q]] + ks[q + 1]];
    WeaveSplit(v', ks', q, ks[q], v[q], ks[q + 1]);
    assert Insert(v', q, v[q]) == v;
    assert Insert(ks', q + 1, ks[q + 1])[q := ks[q]] == ks;
  }

  /** Everything in order after child i. */
  function After(v: seq<Entry>, ks: seq<seq<Entry>>, i: nat): seq<Entry>
    requires |ks| == |v| + 1 && i <= |v|
  {
    WeaveTail(v[i..], ks[i + 1..])
  }

  lemma WeaveAround(v: seq<Entry>, ks: seq<seq<Entry>>, i: nat)
    requires |ks| == |v| + 1 && i <= |v|
    ensures Weave(v, ks) == Before(v, ks, i) + ks[i] + After(v, ks, i)
  {
    assert ks[i..][1..] == ks[i + 1..];
    assert After(v, ks, i) == WeaveTail(v[i..], ks[i..][1..]);
    hide *;
    WeaveAt(v, ks, i);
    WeaveHead(v[i..], ks[i..]);
    Associates(Before(v, ks, i), ks[i], After(v, ks, i));
  }

  /** Where values and children are once child q has been split in two as in WeaveSplit. */
  lemma InsertedAt(v: seq<Entry>, ks: seq<seq<Entry>>, q: nat, a: seq<Entry>, m: Entry, b: seq<Entry>)
    requires |ks| == |v| + 1 && q <= |v|
    ensures
      var w, c := Insert(v, q, m), Insert(ks, q + 1, b)[q := a];
      && w[q] == m && c[q] == a && c[q + 1] == b && w[..q] == v[..q] && c[..q] == ks[..q]
      && (forall j :: q <= j < |v| ==> w[j + 1] == v[j]) && (forall j :: q < j <= |v| ==> c[j + 1] == ks[j])
  {
  }

  lemma Regroup(x: seq<Entry>, a: seq<Entry>, m: Entry, b: seq<Entry>, y: seq<Entry>)
    ensures x + a + [m] + b + y == x + (a + [m] + b) + y
  {
  }

  lemma BeforeMore(v: seq<Entry>, ks: seq<seq<Entry>>, i: nat)
    requires i < |v| && i < |ks|
    ensures Before(v, ks, i + 1) == Before(v, ks, i) + ks[i] + [v[i]]
  {
  }

  lemma BeforeInsertLeft(v: seq<Entry>, ks: seq<seq<Entry>>, q: nat, a: seq<Entry>, m: Entry, b: seq<Entry>, i: nat)
    requires |ks| == |v| + 1 && i <= q <= |v|
    ensures Before(Insert(v, q, m), Insert(ks, q + 1, b)[q := a], i) == Before(v, ks, i)
  {
    var w, c := Insert(v, q, m), Insert(ks, q + 1, b)[q := a];
    InsertedAt(v, ks, q, a, m, b);
    hide *;
    assert w[..i] == w[..q][..i] == v[..i] && c[..i] == c[..q][..i] == ks[..i];
    BeforePrefix(w, c, v, ks, i);
  }

  lemma BeforeInsertHere(v: seq<Entry>, ks: seq<seq<Entry>>, q: nat, a: seq<Entry>, m: Entry, b: seq<Entry>)
    requires |ks| == |v| + 1 && q <= |v|
    ensures Before(Insert(v, q, m), Insert(ks, q + 1, b)[q := a], q + 1) == Before(v, ks, q) + a + [m]
  {
    hide *;
    InsertedAt(v, ks, q, a, m, b);
    BeforeInsertLeft(v, ks, q, a, m, b, q);
    BeforeMore(Insert(v, q, m), Insert(ks, q + 1, b)[q := a], q);
  }

  lemma BeforeInsertNext(v: seq<Entry>, ks: seq<seq<Entry>>, q: nat, a: seq<Entry>, m: Entry, b: seq<Entry>)
    requires |ks| == |v| + 1 && q < |v| && ks[q] == a + [m] + b
    ensures Before(Insert(v, q, m), Insert(ks, q + 1, b)[q := a], q + 2) == Before(v, ks, q + 1)
  {
    hide *;
    var w, c := Insert(v, q, m), Insert(ks, q + 1, b)[q := a];
    InsertedAt(v, ks, q, a, m, b);
    assert w[q + 1] == v[q] && c[q + 1] == b;
    BeforeMore(w, c, q + 1);
    BeforeMore(v, ks, q);
    BeforeInsertHere(v, ks, q, a, m, b);
    Regroup(Before(v, ks, q), a, m, b, [v[q]]);
  }

  lemma {:induction false} BeforeInsertRight(v: seq<Entry>, ks: seq<seq<Entry>>, q: nat, a: seq<Entry>, m: Entry,
        b: seq<Entry>, i: nat)
    requires |ks| == |v| + 1 && q < i <= |v| && ks[q] == a + [m] + b
    ensures Before(Insert(v, q, m), Insert(ks, q + 1, b)[q := a], i + 1) == Before(v, ks, i)
  {
    hide *;
    if i == q + 1 {
      BeforeInsertNext(v, ks, q, a, m, b);
    } else {
      var w, c := Insert(v, q, m), Insert(ks, q + 1, b)[q := a];
      InsertedAt(v, ks, q, a, m, b);
      assert w[i] == v[i - 1] && c[i] == ks[i - 1];
      BeforeMore(w, c, i);
      BeforeMore(v, ks, i - 1);
      BeforeInsertRight(v, ks, q, a, m, b, i - 1);
    }
  }

  /** What precedes each child when child q is split in two as in WeaveSplit. */
  lemma BeforeInsert(v: seq<Entry>, ks: seq<seq<Entry>>, q: nat, a: seq<Entry>, m: Entry, b: seq<Entry>, i: nat)
    requires |ks| == |v| + 1 && q <= |v| && i <= |v| && ks[q] == a + [m] + b
    ensures Before(Insert(v, q, m), Insert(ks, q + 1, b)[q := a], if i <= q then i else i + 1) == Before(v, ks, i)
    ensures Before(Insert(v, q, m), Insert(ks, q + 1, b)[q := a], q + 1) == Before(v, ks, q) + a + [m]
  {
    hide *;
    BeforeInsertHere(v, ks, q, a, m, b);
    if i <= q {
      BeforeInsertLeft(v, ks, q, a, m, b, i);
    } else {
      BeforeInsertRight(v, ks, q, a, m, b, i);
    }
  }

  /** Value i of a node in its weave. */
  lemma WeaveValue(v: seq<Entry>, ks: seq<seq<Entry>>, i: nat)
    requires |ks| == |v| + 1 && i < |v|
    ensures
      var j := |Before(v, ks, i)| + |ks[i]|;
      j < |Weave(v, ks)| && Weave(v, ks)[j] == v[i]
  {
    WeaveAround(v, ks, i + 1);
    BeforeMore(v, ks, i);
  }

  lemma WeaveReplace(v: seq<Entry>, ks: seq<seq<Entry>>, i: nat, ks': seq<seq<Entry>>)
    requires |ks| == |ks'| == |v| + 1 && i <= |v|
    requires forall j :: 0 <= j < |ks| && j != i ==> ks'[j] == ks[j]
    ensures Weave(v, ks') == Before(v, ks, i) + ks'[i] + After(v, ks, i)
  {
    assert ks[..i] == ks'[..i];
    BeforePrefix(v, ks, v, ks', i);
    assert ks[i + 1..] == ks'[i + 1..];
    WeaveAround(v, ks', i);
  }
}
