/** The index as its callers see it: an insert-if-absent ordered map from 64-bit hashes to index entries. */
module BTreeMaps {
  import opened Entries
  import opened Trees
  import opened Cursors
  import opened OrderedMap
  import opened BTrees

  class BTreeMap {
    const b: BTree

    ghost predicate Valid()
      reads this, b, b.st.Keys, Arrs(b.st.Keys)
    {
      b.Valid()
    }

    /** The map the tree stands for. */
    ghost function Model(): Index
      reads b
    {
      ToMap(b.Contents())
    }

    lemma Opens()
      requires Valid() || b.Valid()
      ensures Valid() && b.Valid() && Model() == ToMap(b.Contents()) && Repr() == {b} + b.st.Keys + Arrs(b.st.Keys)
    {
    }

    /** Everything a call may change. */
    ghost function Repr(): set<object>
      reads b
    {
      {b} + b.st.Keys + Arrs(b.st.Keys)
    }

    constructor (kNodeValues: nat)
      requires 3 <= kNodeValues
      ensures Valid() && Model() == map[] && fresh(b) && fresh(Repr())
    {
      b := new BTree(kNodeValues);
    }

    method Find(key: Key) returns (found: bool, e: IndexEntry)
      requires Valid()
      ensures Valid() && Model() == old(Model()) && Repr() == old(Repr())
      ensures found == (key in Model())
      ensures found ==> e == Model()[key]
    {
      hide BTree.Valid, BTree.Contents, BTree.Points, Arrs, ToMap, Cut, HasKey, Sorted, Entries.Insert, Remove;
      ghost var w := b.Contents();
      StorageAllocated(b.st);
      ToMapHas(w, key);
      b.ValidParts();
      ghost var k;
      var it;
      it, k := b.Find(key);
      HasKeyMeans(w, key);
      var end := b.End();
      b.EqualIterators(it, if HasKey(w, key) then k else |w|, end, |w|);
      found, e := false, IndexEntry(0, 0);
      if it != end {
        ToMapAt(w, k);
        b.FoundHere(it, k);
        found, e := true, it.node.values[it.position].data;
      }
    }

    method Insert(key: Key, e: IndexEntry)
      requires Valid()
      modifies Repr()
      ensures Valid() && fresh(Repr() - old(Repr()))
      ensures Model() == if key in old(Model()) then old(Model()) else old(Model())[key := e]
    {
      hide BTree.Valid, BTree.Contents, BTree.Points, Arrs, ToMap, Cut, HasKey, Sorted, Entries.Insert, Remove;
      ghost var w := b.Contents();
      ToMapHas(w, key);
      b.ValidParts();
      ghost var k;
      var it, inserted;
      it, inserted, k := b.InsertUnique(Entry(key, e));
      if inserted {
        InsertMeans(w, k, Entry(key, e));
        ToMapInsert(w, k, Entry(key, e));
      }
    }

    method Delete(key: Key)
      requires Valid()
      modifies Repr()
      ensures Valid() && fresh(Repr() - old(Repr()))
      ensures Model() == old(Model()) - {key}
    {
      hide BTree.Valid, BTree.Contents, BTree.Points, Arrs, ToMap, Cut, HasKey, Sorted, Entries.Insert, Remove;
      ghost var w := b.Contents();
      ghost var s := b.st;
      ToMapHas(w, key);
      b.ValidParts();
      ghost var k;
      var erased;
      erased, k := b.EraseUnique(key);
      ArrsSub(b.st, s);
      if erased {
        RemoveMeans(w, k);
        ToMapRemove(w, k);
      }
    }

    /** The first n entries from key on, in arrays of which the first nb places are filled. */
    method FindN(key: Key, n: nat) returns (hashes: array<Key>, entries: array<IndexEntry>, nb: nat)
      requires Valid()
      ensures Valid() && Model() == old(Model()) && Repr() == old(Repr())
      ensures fresh(hashes) && fresh(entries) && hashes.Length == entries.Length == n && nb <= n
      ensures FirstFrom(Model(), key, n, hashes[..nb], entries[..nb])
    {
      hide *;
      Opens();
      StorageAllocated(b.st);
      hashes, entries, nb := NewArrays(n);
      ghost var w := b.Contents();
      b.ValidParts();
      ghost var k;
      var it;
      it, k := b.FindClosest(key);
      CutMeans(w, k, key);
      var end := b.End();
      b.EqualIterators(it, k, end, |w|);
      CopiedNone(w, k);
      assert hashes[..nb] == [] && entries[..nb] == [];
      while it != end && nb < n
        invariant nb <= n && k + nb <= |w|
        invariant b.Valid() && b.Contents() == w && b.Points(it, k + nb) && b.Points(end, |w|)
        invariant (it == end <==> k + nb == |w|)
        invariant Copied(w, k, hashes[..nb], entries[..nb])
        decreases |w| - k - nb
        modifies hashes, entries
      {
        CopyOne(it, hashes, entries, nb, k, w);
        nb := nb + 1;
        it := b.Next(it, k + nb - 1);
        b.EqualIterators(it, k + nb, end, |w|);
      }
      Opens();
      StretchFirst(w, k, key, n, hashes[..nb], entries[..nb]);
    }

    method NewArrays(n: nat) returns (hashes: array<Key>, entries: array<IndexEntry>, nb: nat)
      ensures fresh(hashes) && fresh(entries) && hashes.Length == entries.Length == n && nb == 0
    {
      hashes := new Key[n](_ => 0);
      entries := new IndexEntry[n](_ => IndexEntry(0, 0));
      nb := 0;
    }

    method CopyOne(it: Iter, hashes: array<Key>, entries: array<IndexEntry>, nb: nat, ghost k: nat, ghost w: seq<Entry>)
      requires b.Valid() && b.Contents() == w && k + nb < |w| && b.Points(it, k + nb)
      requires nb < hashes.Length == entries.Length && Copied(w, k, hashes[..nb], entries[..nb])
      modifies hashes, entries
      ensures Copied(w, k, hashes[..nb + 1], entries[..nb + 1])
    {
      hide *;
      b.FoundHere(it, k + nb);
      ghost var hs, es := hashes[..nb], entries[..nb];
      hashes[nb] := it.node.values[it.position].key;
      entries[nb] := it.node.values[it.position].data;
      assert hashes[..nb + 1] == hs + [w[k + nb].key] && entries[..nb + 1] == es + [w[k + nb].data];
      CopiedMore(w, k, hs, es, hashes[..nb + 1], entries[..nb + 1]);
    }

    /** Calls back with every key: the list of calls made. */
    method ForallKeys() returns (calls: seq<Key>)
      requires Valid()
      ensures Ascending(calls) && forall key :: key in calls <==> key in Model()
    {
      hide BTree.Valid, BTree.Contents, BTree.Points, Arrs, ToMap, FirstFrom, Cut;
      StorageAllocated(b.st);
      calls := [];
      ghost var w := b.Contents();
      b.ValidParts();
      var it := b.Begin();
      var end := b.End();
      b.EqualIterators(it, 0, end, |w|);
      while it != end
        invariant |calls| <= |w|
        invariant Valid() && b.Contents() == w && b.Points(it, |calls|) && b.Points(end, |w|)
        invariant (it == end <==> |calls| == |w|)
        invariant forall j :: 0 <= j < |calls| ==> calls[j] == w[j].key
        decreases |w| - |calls|
      {
        b.FoundHere(it, |calls|);
        calls := calls + [it.node.values[it.position].key];
        it := b.Next(it, |calls| - 1);
        b.EqualIterators(it, |calls|, end, |w|);
      }
      forall key
        ensures key in calls <==> key in ToMap(w)
      {
        ToMapHas(w, key);
        if HasKey(w, key) {
          var j :| 0 <= j < |w| && w[j].key == key;
          assert calls[j] == key;
        }
        if key in calls {
          var j :| 0 <= j < |calls| && calls[j] == key;
          assert w[j].key == key;
        }
      }
    }
  }

  /** Makes the call c. */
  method Make(t: BTreeMap, c: Call) returns (a: Answer)
    requires t.Valid()
    modifies t.Repr()
    ensures t.Valid() && fresh(t.Repr() - old(t.Repr()))
    ensures Answers(old(t.Model()), c, a) && t.Model() == After(old(t.Model()), c)
  {
    hide BTreeMap.Valid, BTreeMap.Model, BTreeMap.Repr, FirstFrom;
    match c {
      case Put(key, e) =>
        t.Insert(key, e);
        a := Done;
      case Drop(key) =>
        t.Delete(key);
        a := Done;
      case Get(key) =>
        var found, e := t.Find(key);
        a := if found then Present(e) else Missing;
      case GetN(key, n) =>
        var hashes, entries, nb := t.FindN(key, n);
        a := Scan(hashes[..nb], entries[..nb]);
    }
  }

  /** Makes the calls cs, in order, on one tree: it answers as a plain map would, whose values in between are models. */
  method RunAll(t: BTreeMap, cs: seq<Call>) returns (ans: seq<Answer>, ghost models: seq<Index>)
    requires t.Valid()
    modifies t.Repr()
    ensures t.Valid() && fresh(t.Repr() - old(t.Repr()))
    ensures AnswersAll(old(t.Model()), cs, ans)
    ensures |ans| == |cs| && |models| == |cs| + 1 && models[0] == old(t.Model()) && models[|cs|] == t.Model()
    ensures forall i {:trigger cs[i]} :: 0 <= i < |cs| ==>
      var before, after := models[i], models[i + 1];
      match cs[i]
      case Put(key, data) =>
        ans[i] == Done && after == if key in before then before else before[key := data]
      case Drop(key) => ans[i] == Done && after == before - {key}
      case Get(key) => after == before && ans[i] == if key in before then Present(before[key]) else Missing
      case GetN(key, n) =>
        after == before && ans[i].Scan? && FirstFrom(before, key, n, ans[i].hashes, ans[i].entries)
  {
    hide BTreeMap.Valid, BTreeMap.Model, BTreeMap.Repr, Answers, After;
    ans := [];
    var i := 0;
    ghost var m := t.Model();
    assert cs[..0] == [];
    while i < |cs|
      invariant i <= |cs| && |ans| == i
      invariant t.Valid() && fresh(t.Repr() - old(t.Repr())) && t.Model() == AfterAll(m, cs[..i])
      invariant forall j :: 0 <= j < i ==> Answers(AfterAll(m, cs[..j]), cs[j], ans[j])
    {
      assert cs[..i + 1][..i] == cs[..i];
      label L:
      var a := Make(t, cs[i]);
      ans := ans + [a];
      assert forall x :: x in t.Repr() && old(allocated(x)) ==> old@L(allocated(x));
      i := i + 1;
    }
    assert cs[..|cs|] == cs;
    models := Models(m, cs);
    ModelsMean(m, cs, ans);
  }
}
