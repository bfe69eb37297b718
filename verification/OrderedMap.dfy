/** The plain map that a strictly ordered sequence of entries stands for, and what calls on it answer. */
module OrderedMap {
  import opened Entries
  import opened Cursors

  type Index = map<Key, IndexEntry>

  ghost function ToMap(w: seq<Entry>): Index {
    if w == [] then map[] else ToMap(w[..|w| - 1])[w[|w| - 1].key := w[|w| - 1].data]
  }

  lemma {:induction false} ToMapAt(w: seq<Entry>, j: nat)
    requires Sorted(w) && j < |w|
    ensures w[j].key in ToMap(w) && ToMap(w)[w[j].key] == w[j].data
  {
    if j < |w| - 1 {
      ToMapAt(w[..|w| - 1], j);
    }
  }

  lemma {:induction false} ToMapHas(w: seq<Entry>, key: Key)
    ensures key in ToMap(w) <==> HasKey(w, key)
  {
    if w != [] {
      var v := w[..|w| - 1];
      ToMapHas(v, key);
      if HasKey(w, key) {
        var j :| 0 <= j < |w| && w[j].key == key;
        assert j < |v| ==> v[j].key == key;
      }
      if HasKey(v, key) {
        var j :| 0 <= j < |v| && v[j].key == key;
        assert w[j].key == key;
      }
      assert w[|w| - 1].key == key ==> HasKey(w, key);
    }
  }

  /** The map of a sequence is fixed by its entries. */
  lemma ToMapIs(w: seq<Entry>, m: Index)
    requires Sorted(w)
    requires forall j :: 0 <= j < |w| ==> w[j].key in m && m[w[j].key] == w[j].data
    requires forall key :: key in m ==> HasKey(w, key)
    ensures ToMap(w) == m
  {
    forall key | key in m
      ensures key in ToMap(w) && ToMap(w)[key] == m[key]
    {
      var j :| 0 <= j < |w| && w[j].key == key;
      ToMapAt(w, j);
    }
    forall key | key in ToMap(w)
      ensures key in m
    {
      ToMapHas(w, key);
      var j :| 0 <= j < |w| && w[j].key == key;
    }
  }

  lemma ToMapInsert(w: seq<Entry>, k: nat, x: Entry)
    requires Sorted(w) && Cut(w, k, x.key, false) && !HasKey(w, x.key)
    ensures ToMap(Insert(w, k, x)) == ToMap(w)[x.key := x.data]
  {
    var v, m := Insert(w, k, x), ToMap(w)[x.key := x.data];
    InsertSorted(w, k, x);
    forall j | 0 <= j < |v|
      ensures v[j].key in m && m[v[j].key] == v[j].data
    {
      if j != k {
        var i := if j < k then j else j - 1;
        assert v[j] == w[i];
        ToMapAt(w, i);
      }
    }
    forall key | key in m
      ensures HasKey(v, key)
    {
      if key == x.key {
        assert v[k].key == key;
      } else {
        ToMapHas(w, key);
        var i :| 0 <= i < |w| && w[i].key == key;
        assert v[if i < k then i else i + 1].key == key;
      }
    }
    ToMapIs(v, m);
  }

  lemma RemovedAt(w: seq<Entry>, k: nat, i: nat)
    requires k < |w| && i < |w| && i != k
    ensures (if i < k then i else i - 1) < |Remove(w, k)| && Remove(w, k)[if i < k then i else i - 1] == w[i]
  {
  }

  lemma ToMapRemove(w: seq<Entry>, k: nat)
    requires Sorted(w) && k < |w|
    ensures ToMap(Remove(w, k)) == ToMap(w) - {w[k].key}
  {
    var v, m := Remove(w, k), ToMap(w) - {w[k].key};
    RemoveSorted(w, k);
    hide ToMap, Remove;
    forall j | 0 <= j < |v|
      ensures v[j].key in m && m[v[j].key] == v[j].data
    {
      var i := if j < k then j else j + 1;
      RemovedAt(w, k, i);
      ToMapAt(w, i);
    }
    forall key | key in m
      ensures HasKey(v, key)
    {
      ToMapHas(w, key);
      var i :| 0 <= i < |w| && w[i].key == key;
      RemovedAt(w, k, i);
    }
    ToMapIs(v, m);
  }

  lemma RemoveSorted(w: seq<Entry>, k: nat)
    requires Sorted(w) && k < |w|
    ensures Sorted(Remove(w, k))
  {
  }

  // --- range queries ---

  ghost predicate Ascending(hs: seq<Key>) {
    forall i, j :: 0 <= i < j < |hs| ==> hs[i] < hs[j]
  }

  /** hs and es list the n smallest keys from key on, with their entries, or all such keys if there are fewer. */
  ghost predicate FirstFrom(m: Index, key: Key, n: nat, hs: seq<Key>, es: seq<IndexEntry>) {
    && |hs| == |es| <= n && Ascending(hs)
    && (forall j :: 0 <= j < |hs| ==> hs[j] >= key && hs[j] in m && es[j] == m[hs[j]])
    && (forall x :: x in m && x >= key && x !in hs ==> |hs| == n && forall j :: 0 <= j < |hs| ==> hs[j] < x)
  }

  /** hs and es are the keys and the data of the stretch of w that starts at k. */
  ghost predicate Copied(w: seq<Entry>, k: nat, hs: seq<Key>, es: seq<IndexEntry>) {
    && |hs| == |es| && k + |hs| <= |w|
    && forall j :: 0 <= j < |hs| ==> hs[j] == w[k + j].key && es[j] == w[k + j].data
  }

  lemma CopiedNone(w: seq<Entry>, k: nat)
    requires k <= |w|
    ensures Copied(w, k, [], [])
  {
  }

  lemma CopiedMore(w: seq<Entry>, k: nat, hs: seq<Key>, es: seq<IndexEntry>, hs': seq<Key>, es': seq<IndexEntry>)
    requires Copied(w, k, hs, es) && k + |hs| < |w|
    requires hs' == hs + [w[k + |hs|].key] && es' == es + [w[k + |hs|].data]
    ensures Copied(w, k, hs', es')
  {
  }

  /** A stretch of the ordered sequence that starts at the cut of key is such a list. */
  lemma StretchFirst(w: seq<Entry>, k: nat, key: Key, n: nat, hs: seq<Key>, es: seq<IndexEntry>)
    requires Sorted(w) && Cut(w, k, key, false) && Copied(w, k, hs, es) && |hs| <= n && (|hs| == n || k + |hs| == |w|)
    ensures FirstFrom(ToMap(w), key, n, hs, es)
  {
    var m := ToMap(w);
    forall j | 0 <= j < |hs|
      ensures hs[j] >= key && hs[j] in m && es[j] == m[hs[j]]
    {
      ToMapAt(w, k + j);
      assert !Less(w[k + j], key, false);
    }
    forall x | x in m && x >= key && x !in hs
      ensures |hs| == n && forall j :: 0 <= j < |hs| ==> hs[j] < x
    {
      ToMapHas(w, x);
      var i :| 0 <= i < |w| && w[i].key == x;
      BehindStretch(w, k, key, hs, es, i);
    }
  }

  /** An element with a key from key on that is not in the stretch lies behind it. */
  lemma BehindStretch(w: seq<Entry>, k: nat, key: Key, hs: seq<Key>, es: seq<IndexEntry>, i: nat)
    requires Sorted(w) && Cut(w, k, key, false) && Copied(w, k, hs, es) && i < |w| && w[i].key >= key
    requires w[i].key !in hs
    ensures k + |hs| <= i && forall j :: 0 <= j < |hs| ==> hs[j] < w[i].key
  {
    assert i < k ==> Less(w[i], key, false);
    assert forall t :: k <= t < k + |hs| ==> w[t].key == hs[t - k];
    assert forall j :: 0 <= j < |hs| ==> hs[j] == w[k + j].key;
  }

  /** There is only one such list. */
  lemma FirstUnique(m: Index, key: Key, n: nat, hs: seq<Key>, es: seq<IndexEntry>, hs': seq<Key>, es': seq<IndexEntry>)
    requires FirstFrom(m, key, n, hs, es) && FirstFrom(m, key, n, hs', es')
    ensures hs == hs' && es == es'
  {
    var c := if |hs| < |hs'| then |hs| else |hs'|;
    FirstPrefix(m, key, n, hs, es, hs', es', c);
    SameLength(m, key, n, hs, es, hs', es');
    SameLength(m, key, n, hs', es', hs, es);
  }

  lemma SameLength(m: Index, key: Key, n: nat, hs: seq<Key>, es: seq<IndexEntry>, hs': seq<Key>, es': seq<IndexEntry>)
    requires FirstFrom(m, key, n, hs, es) && FirstFrom(m, key, n, hs', es')
    requires forall j :: 0 <= j < |hs| && j < |hs'| ==> hs[j] == hs'[j]
    ensures |hs'| <= |hs|
  {
    if hs' != [] {
      var y := hs'[|hs'| - 1];
      if y in hs {
        var j :| 0 <= j < |hs| && hs[j] == y;
        assert j < |hs'| - 1 ==> hs'[j] < y;
      }
    }
  }

  lemma {:induction false} FirstPrefix(m: Index, key: Key, n: nat, hs: seq<Key>, es: seq<IndexEntry>, hs': seq<Key>,
        es': seq<IndexEntry>, c: nat)
    requires FirstFrom(m, key, n, hs, es) && FirstFrom(m, key, n, hs', es') && c <= |hs| && c <= |hs'|
    ensures forall j :: 0 <= j < c ==> hs[j] == hs'[j]
  {
    hide FirstFrom;
    if c > 0 {
      FirstPrefix(m, key, n, hs, es, hs', es', c - 1);
      NotEarlier(m, key, n, hs, es, hs', es', c - 1);
      NotEarlier(m, key, n, hs', es', hs, es, c - 1);
    }
  }

  lemma NotEarlier(m: Index, key: Key, n: nat, hs: seq<Key>, es: seq<IndexEntry>, hs': seq<Key>, es': seq<IndexEntry>,
        c: nat)
    requires FirstFrom(m, key, n, hs, es) && FirstFrom(m, key, n, hs', es') && c < |hs| && c < |hs'|
    requires forall j :: 0 <= j < c ==> hs[j] == hs'[j]
    ensures hs'[c] <= hs[c]
  {
    if hs[c] in hs' {
      var j :| 0 <= j < |hs'| && hs'[j] == hs[c];
      assert j < c ==> hs[j] < hs[c];
    }
  }

  // --- runs of calls ---

  datatype Call = Put(key: Key, data: IndexEntry) | Drop(key: Key) | Get(key: Key) | GetN(key: Key, n: nat)

  datatype Answer = Done | Missing | Present(data: IndexEntry) | Scan(hashes: seq<Key>, entries: seq<IndexEntry>)

  /** The first insertion of a key wins. */
  ghost function After(m: Index, c: Call): Index {
    match c
    case Put(key, data) => if key in m then m else m[key := data]
    case Drop(key) => m - {key}
    case Get(_) => m
    case GetN(_, _) => m
  }

  ghost predicate Answers(m: Index, c: Call, a: Answer) {
    match c
    case Put(_, _) => a == Done
    case Drop(_) => a == Done
    case Get(key) => a == if key in m then Present(m[key]) else Missing
    case GetN(key, n) => a.Scan? && FirstFrom(m, key, n, a.hashes, a.entries)
  }

  ghost function AfterAll(m: Index, cs: seq<Call>): Index {
    if cs == [] then m else After(AfterAll(m, cs[..|cs| - 1]), cs[|cs| - 1])
  }

  ghost predicate AnswersAll(m: Index, cs: seq<Call>, ans: seq<Answer>) {
    |ans| == |cs| && forall i :: 0 <= i < |cs| ==> Answers(AfterAll(m, cs[..i]), cs[i], ans[i])
  }

  /** The plain maps that a run of calls passes through: the first insertion of a key wins, a removed key is gone, and
      a lookup changes nothing. */
  ghost function Models(m: Index, cs: seq<Call>): (models: seq<Index>)
    ensures |models| == |cs| + 1
  {
    seq(|cs| + 1, i requires 0 <= i <= |cs| => AfterAll(m, cs[..i]))
  }

  lemma ModelsMean(m: Index, cs: seq<Call>, ans: seq<Answer>)
    requires AnswersAll(m, cs, ans)
    ensures |ans| == |cs| && Models(m, cs)[0] == m && Models(m, cs)[|cs|] == AfterAll(m, cs)
    ensures forall i {:trigger cs[i]} :: 0 <= i < |cs| ==>
      var before, after := Models(m, cs)[i], Models(m, cs)[i + 1];
      match cs[i]
      case Put(key, data) =>
        ans[i] == Done && after == if key in before then before else before[key := data]
      case Drop(key) => ans[i] == Done && after == before - {key}
      case Get(key) => after == before && ans[i] == if key in before then Present(before[key]) else Missing
      case GetN(key, n) =>
        after == before && ans[i].Scan? && FirstFrom(before, key, n, ans[i].hashes, ans[i].entries)
  {
    hide FirstFrom;
    assert cs[..0] == [] && cs[..|cs|] == cs;
    forall i | 0 <= i < |cs|
      ensures Answers(Models(m, cs)[i], cs[i], ans[i])
      ensures Models(m, cs)[i + 1] == After(Models(m, cs)[i], cs[i])
    {
      assert cs[..i + 1][..i] == cs[..i];
    }
  }

  /** The plain map leaves no choice: a run of calls has exactly one list of answers. */
  lemma AnswersUnique(m: Index, cs: seq<Call>, ans: seq<Answer>, ans': seq<Answer>)
    requires AnswersAll(m, cs, ans) && AnswersAll(m, cs, ans')
    ensures ans == ans'
  {
    forall i | 0 <= i < |cs|
      ensures ans[i] == ans'[i]
    {
      var m' := AfterAll(m, cs[..i]);
      assert Answers(m', cs[i], ans[i]) && Answers(m', cs[i], ans'[i]);
      if cs[i].GetN? {
        FirstUnique(m', cs[i].key, cs[i].n, ans[i].hashes, ans[i].entries, ans'[i].hashes, ans'[i].entries);
      }
    }
  }
}
