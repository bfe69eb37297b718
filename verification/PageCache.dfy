/** The page cache: page frames on a free list, in the LRU lists of the levels, or pinned for internal nodes. */
module PageCaches {
  import opened Sequences

  const LISTS := 512
  const ITEMS := 512

  datatype Entry = Entry(hash: nat, page: nat, containsData: bool, dirty: bool)

  /** One level: its index from hashes to pages, and its LRU list from the oldest entry to the newest. */
  datatype Level = Level(index: map<nat, nat>, lru: seq<Entry>, usedlru: nat, minPages: nat)

  // --- one level ---

  function Pages(lru: seq<Entry>): (s: seq<nat>)
    ensures |s| == |lru| && forall i :: 0 <= i < |s| ==> s[i] == lru[i].page
  {
    seq(|lru|, i requires 0 <= i < |lru| => lru[i].page)
  }

  /** The index has exactly the hashes of the list, each once, with its page. */
  ghost predicate Agrees(l: Level) {
    && l.usedlru == |l.lru|
    && (forall i, j :: 0 <= i < j < |l.lru| ==> l.lru[i].hash != l.lru[j].hash)
    && (forall i :: 0 <= i < |l.lru| ==> l.lru[i].hash in l.index && l.index[l.lru[i].hash] == l.lru[i].page)
    && (forall h :: h in l.index ==> exists i :: 0 <= i < |l.lru| && l.lru[i].hash == h)
  }

  function Added(l: Level, page: nat, hash: nat): Level {
    l.(index := l.index[hash := page], lru := l.lru + [Entry(hash, page, false, false)], usedlru := l.usedlru + 1)
  }

  function Evicted(l: Level): Level
    requires l.lru != [] && l.usedlru > 0
  {
    l.(index := l.index - {l.lru[0].hash}, lru := l.lru[1..], usedlru := l.usedlru - 1)
  }

  function Bumped(l: Level, i: nat): Level
    requires i < |l.lru|
  {
    l.(lru := l.lru[..i] + l.lru[i + 1..] + [l.lru[i]])
  }

  lemma AddedAgrees(l: Level, page: nat, hash: nat)
    requires Agrees(l) && hash !in l.index
    ensures Agrees(Added(l, page, hash))
  {
    var l' := Added(l, page, hash);
    forall h | h in l'.index
      ensures exists i :: 0 <= i < |l'.lru| && l'.lru[i].hash == h
    {
      if h == hash {
        assert l'.lru[|l.lru|].hash == h;
      } else {
        var i :| 0 <= i < |l.lru| && l.lru[i].hash == h;
        assert l'.lru[i].hash == h;
      }
    }
  }

  lemma EvictedAgrees(l: Level)
    requires Agrees(l) && l.lru != []
    ensures Agrees(Evicted(l))
  {
    var l' := Evicted(l);
    forall h | h in l'.index
      ensures exists i :: 0 <= i < |l'.lru| && l'.lru[i].hash == h
    {
      var i :| 0 <= i < |l.lru| && l.lru[i].hash == h;
      assert l'.lru[i - 1].hash == h;
    }
  }

  /** A level that must keep a page is never emptied by an eviction. */
  lemma EvictionKeepsOne(l: Level)
    requires Agrees(l) && l.usedlru > l.minPages >= 1
    ensures Evicted(l).lru != []
  {
  }

  lemma BumpedPages(l: Level, i: nat)
    requires i < |l.lru|
    ensures multiset(Pages(Bumped(l, i).lru)) == multiset(Pages(l.lru))
  {
    var p, l' := Pages(l.lru), Bumped(l, i);
    assert p == p[..i] + [p[i]] + p[i + 1..];
    assert Pages(l'.lru) == p[..i] + p[i + 1..] + [p[i]];
    hide Pages, Bumped;
    Rotated(p[..i], p[i], p[i + 1..]);
  }

  lemma Rotated(a: seq<nat>, x: nat, b: seq<nat>)
    ensures multiset(a + b + [x]) == multiset(a + [x] + b)
  {
  }

  /** Where entry j came from when entry i of n became the newest, and where it went. */
  function Source(i: nat, n: nat, j: nat): nat {
    if j < i then j else if j + 1 == n then i else j + 1
  }

  function Target(i: nat, n: nat, j: nat): nat {
    if j < i then j else if j == i && n > 0 then n - 1 else if j > 0 then j - 1 else 0
  }

  lemma BumpedAt(l: Level, i: nat, j: nat)
    requires i < |l.lru| && j < |l.lru|
    ensures |Bumped(l, i).lru| == |l.lru| && Source(i, |l.lru|, j) < |l.lru| && Target(i, |l.lru|, j) < |l.lru|
    ensures Bumped(l, i).lru[j] == l.lru[Source(i, |l.lru|, j)]
    ensures Source(i, |l.lru|, Target(i, |l.lru|, j)) == j == Target(i, |l.lru|, Source(i, |l.lru|, j))
  {
  }

  lemma BumpedAgrees(l: Level, i: nat)
    requires Agrees(l) && i < |l.lru|
    ensures Agrees(Bumped(l, i))
  {
    var l', n := Bumped(l, i), |l.lru|;
    assert l'.index == l.index && l'.usedlru == l.usedlru && |l'.lru| == n;
    hide Bumped, Source, Target;
    forall j, k | 0 <= j < k < n
      ensures l'.lru[j].hash != l'.lru[k].hash
    {
      BumpedAt(l, i, j);
      BumpedAt(l, i, k);
      assert Source(i, n, j) != Source(i, n, k);
    }
    forall j | 0 <= j < n
      ensures l'.lru[j].hash in l.index && l.index[l'.lru[j].hash] == l'.lru[j].page
    {
      BumpedAt(l, i, j);
    }
    forall h | h in l.index
      ensures exists j :: 0 <= j < n && l'.lru[j].hash == h
    {
      var j :| 0 <= j < n && l.lru[j].hash == h;
      BumpedAt(l, i, j);
      BumpedAt(l, i, Target(i, n, j));
      assert l'.lru[Target(i, n, j)].hash == h;
    }
  }

  // --- all levels ---

  /** The frames in the LRU lists, counted. */
  ghost function Bag(ls: seq<Level>): multiset<nat> {
    if ls == [] then multiset{} else Bag(ls[..|ls| - 1]) + multiset(Pages(ls[|ls| - 1].lru))
  }

  lemma {:induction false} BagUpdate(ls: seq<Level>, i: nat, l: Level)
    requires i < |ls|
    ensures Bag(ls[i := l]) + multiset(Pages(ls[i].lru)) == Bag(ls) + multiset(Pages(l.lru))
  {
    var n := |ls| - 1;
    if i < n {
      var last := multiset(Pages(ls[n].lru));
      assert ls[i := l][..n] == ls[..n][i := l] && ls[i := l][n] == ls[n];
      assert Bag(ls[i := l]) == Bag(ls[..n][i := l]) + last;
      BagUpdate(ls[..n], i, l);
      assert Bag(ls) == Bag(ls[..n]) + last;
      hide *;
      Swap3(Bag(ls[..n][i := l]), last, multiset(Pages(ls[i].lru)));
      Swap3(Bag(ls[..n]), last, multiset(Pages(l.lru)));
    } else {
      assert ls[i := l][..n] == ls[..n] && ls[i := l][n] == l;
      assert Bag(ls[i := l]) == Bag(ls[..n]) + multiset(Pages(l.lru));
      assert Bag(ls) == Bag(ls[..n]) + multiset(Pages(ls[n].lru));
      hide *;
      Swap3(Bag(ls[..n]), multiset(Pages(l.lru)), multiset(Pages(ls[n].lru)));
    }
  }

  lemma Swap3(a: multiset<nat>, b: multiset<nat>, c: multiset<nat>)
    ensures a + b + c == a + c + b
  {
  }

  lemma Cancel(a: multiset<nat>, b: multiset<nat>, p: multiset<nat>)
    requires a + p == b + p
    ensures a == b
  {
    forall x: nat
      ensures a[x] == b[x]
    {
      assert (a + p)[x] == (b + p)[x];
    }
  }

  lemma {:induction false} BagHas(ls: seq<Level>, i: nat, j: nat)
    requires i < |ls| && j < |ls[i].lru|
    ensures ls[i].lru[j].page in Bag(ls)
  {
    var n := |ls| - 1;
    if i < n {
      BagHas(ls[..n], i, j);
    } else {
      assert Pages(ls[n].lru)[j] == ls[n].lru[j].page;
    }
  }

  ghost predicate AllAgree(ls: seq<Level>) {
    forall i :: 0 <= i < |ls| ==> Agrees(ls[i])
  }

  /** v is the highest level that may lose a page, and is at least level. */
  ghost predicate IsVictim(ls: seq<Level>, level: nat, v: int) {
    && level <= v < |ls| && ls[v].usedlru > ls[v].minPages
    && forall i :: v < i < |ls| ==> ls[i].usedlru <= ls[i].minPages
  }

  ghost predicate NoVictim(ls: seq<Level>, level: nat) {
    forall i :: level <= i < |ls| ==> ls[i].usedlru <= ls[i].minPages
  }

  // --- who owns a frame ---

  /** Each of the frames used so far is, exactly once, free, in an LRU list, pinned or in hand. */
  ghost predicate Owned(free: seq<nat>, ls: seq<Level>, pinned: seq<nat>, hand: multiset<nat>, used: nat) {
    multiset(free) + Bag(ls) + multiset(pinned) + hand == multiset(Upto(used))
  }

  lemma OwnedAdded(free: seq<nat>, ls: seq<Level>, pinned: seq<nat>, used: nat, level: nat, page: nat, hash: nat)
    requires Owned(free, ls, pinned, multiset{page}, used) && level < |ls|
    ensures Owned(free, ls[level := Added(ls[level], page, hash)], pinned, multiset{}, used)
  {
    var l, l' := ls[level], Added(ls[level], page, hash);
    BagUpdate(ls, level, l');
    assert Pages(l'.lru) == Pages(l.lru) + [page];
    Cancel(Bag(ls[level := l']), Bag(ls) + multiset{page}, multiset(Pages(l.lru)));
  }

  lemma OwnedEvicted(free: seq<nat>, ls: seq<Level>, pinned: seq<nat>, used: nat, v: nat)
    requires Owned(free, ls, pinned, multiset{}, used) && v < |ls| && ls[v].lru != [] && ls[v].usedlru > 0
    ensures Owned(free, ls[v := Evicted(ls[v])], pinned, multiset{ls[v].lru[0].page}, used)
  {
    var l, l' := ls[v], Evicted(ls[v]);
    BagUpdate(ls, v, l');
    assert Pages(l.lru) == [l.lru[0].page] + Pages(l'.lru);
    Cancel(Bag(ls[v := l']) + multiset{l.lru[0].page}, Bag(ls), multiset(Pages(l'.lru)));
  }

  lemma OwnedFree(free: seq<nat>, ls: seq<Level>, pinned: seq<nat>, used: nat)
    requires Owned(free, ls, pinned, multiset{}, used) && free != []
    ensures Owned(free[1..], ls, pinned, multiset{free[0]}, used)
  {
    assert free == [free[0]] + free[1..];
  }

  lemma OwnedNew(free: seq<nat>, ls: seq<Level>, pinned: seq<nat>, used: nat)
    requires Owned(free, ls, pinned, multiset{}, used)
    ensures Owned(free, ls, pinned, multiset{used}, used + 1)
  {
    UptoMore(used);
  }

  lemma OwnedPinned(free: seq<nat>, ls: seq<Level>, pinned: seq<nat>, used: nat, page: nat)
    requires Owned(free, ls, pinned, multiset{page}, used)
    ensures Owned(free, ls, pinned + [page], multiset{}, used)
  {
  }

  /** A pinned frame is in no LRU list and not free, and is pinned once. */
  lemma PinnedAlone(free: seq<nat>, ls: seq<Level>, pinned: seq<nat>, used: nat, i: nat)
    requires Owned(free, ls, pinned, multiset{}, used) && i < |pinned|
    ensures pinned[i] < used && pinned[i] !in free && pinned[i] !in Bag(ls) && multiset(pinned)[pinned[i]] == 1
  {
    UptoOnce(used, pinned[i]);
    assert (multiset(free) + Bag(ls) + multiset(pinned) + multiset{})[pinned[i]] == multiset(Upto(used))[pinned[i]];
    assert pinned[i] in multiset(pinned);
  }

  // --- the table of internal nodes ---

  datatype Pin = Pin(hash: nat, page: nat)

  function PinPages(pins: seq<Pin>): (s: seq<nat>)
    ensures |s| == |pins| && forall i :: 0 <= i < |s| ==> s[i] == pins[i].page
  {
    seq(|pins|, i requires 0 <= i < |pins| => pins[i].page)
  }

  /** The slot of a hash: -1 when its list or its item is not there. */
  function Slot(table: seq<seq<int>>, hash: nat): int
    requires |table| == LISTS && hash < LISTS * ITEMS
    requires forall i :: 0 <= i < LISTS ==> |table[i]| == 0 || |table[i]| == ITEMS
  {
    if table[hash / ITEMS] == [] then -1 else table[hash / ITEMS][hash % ITEMS]
  }

  ghost predicate TableShape(table: seq<seq<int>>) {
    |table| == LISTS && forall i :: 0 <= i < LISTS ==> |table[i]| == 0 || |table[i]| == ITEMS
  }

  /** The table holds exactly the pins, each in the slot of its hash. */
  ghost predicate TableHolds(table: seq<seq<int>>, pins: seq<Pin>) {
    && TableShape(table)
    && (forall i, j :: 0 <= i < j < |pins| ==> pins[i].hash != pins[j].hash)
    && (forall i :: 0 <= i < |pins| ==> pins[i].hash < LISTS * ITEMS && Slot(table, pins[i].hash) == pins[i].page)
    && (forall h: nat :: h < LISTS * ITEMS && Slot(table, h) != -1 ==> exists i :: 0 <= i < |pins| && pins[i].hash == h)
  }

  lemma SlotsApart(h: nat, g: nat)
    ensures h / ITEMS == g / ITEMS && h % ITEMS == g % ITEMS ==> h == g
  {
  }

  /** A list of empty items changes no slot. */
  lemma ListHolds(table: seq<seq<int>>, pins: seq<Pin>, k: nat)
    requires TableHolds(table, pins) && k < LISTS && table[k] == []
    ensures TableHolds(table[k := seq(ITEMS, _ => -1)], pins)
  {
    var t := table[k := seq(ITEMS, _ => -1)];
    assert TableShape(t);
    forall h: nat | h < LISTS * ITEMS
      ensures Slot(t, h) == Slot(table, h)
    {
    }
  }

  lemma PinHolds(table: seq<seq<int>>, pins: seq<Pin>, hash: nat, page: nat)
    requires TableHolds(table, pins) && hash < LISTS * ITEMS && table[hash / ITEMS] != [] && Slot(table, hash) == -1
    ensures TableHolds(table[hash / ITEMS := table[hash / ITEMS][hash % ITEMS := page]], pins + [Pin(hash, page)])
  {
    var t := table[hash / ITEMS := table[hash / ITEMS][hash % ITEMS := page]];
    var pins' := pins + [Pin(hash, page)];
    assert TableShape(t);
    forall h: nat | h < LISTS * ITEMS
      ensures Slot(t, h) == if h == hash then page else Slot(table, h)
    {
      SlotsApart(h, hash);
    }
    forall h: nat | h < LISTS * ITEMS && Slot(t, h) != -1
      ensures exists i :: 0 <= i < |pins'| && pins'[i].hash == h
    {
      if h == hash {
        assert pins'[|pins|].hash == h;
      } else {
        var i :| 0 <= i < |pins| && pins[i].hash == h;
        assert pins'[i].hash == h;
      }
    }
  }

  datatype Use = Get(level: nat, hash: nat) | Map(hash: nat)

  /** What calls see and change of a cache. */
  datatype Cache = Cache(freeList: seq<nat>, used: nat, levels: seq<Level>, pins: seq<Pin>)

  /** Where the page of a call that needed one came from: v is the level that lost it, or -1. */
  ghost predicate FrameFrom(pageNum: nat, s: Cache, level: nat, page: nat, v: int, free: seq<nat>, used: nat) {
    if s.freeList != [] then v == -1 && page == s.freeList[0] && free == s.freeList[1..] && used == s.used
    else if s.used < pageNum then v == -1 && page == s.used == used - 1 && free == []
    else
      && free == [] && used == s.used && level <= v < |s.levels| && s.levels[v].lru != []
      && page == s.levels[v].lru[0].page
  }

  /** One call of get_page, from cache s to cache t. */
  ghost predicate Got(pageNum: nat, s: Cache, level: nat, hash: nat, hit: bool, page: nat, v: int, t: Cache) {
    && level < |s.levels| == |t.levels| && t.pins == s.pins && hit == (hash in s.levels[level].index)
    && if hit then
      && page == s.levels[level].index[hash] && t.freeList == s.freeList && t.used == s.used
      && exists i ::
        && 0 <= i < |s.levels[level].lru| && s.levels[level].lru[i].hash == hash && s.levels[level].lru[i].page == page
        && t.levels == s.levels[level := s.levels[level].(
          lru := s.levels[level].lru[..i] + s.levels[level].lru[i + 1..] + [s.levels[level].lru[i]])]
    else
      && FrameFrom(pageNum, s, level, page, v, t.freeList, t.used)
      && forall i :: 0 <= i < |s.levels| ==>
        && t.levels[i].lru == (if i == v then s.levels[i].lru[1..] else s.levels[i].lru)
          + (if i == level then [Entry(hash, page, false, false)] else [])
        && t.levels[i].minPages == s.levels[i].minPages
  }

  /** One call of map_internal_node_page, from cache s to cache t. */
  ghost predicate Mapped(pageNum: nat, s: Cache, hash: nat, hit: bool, page: nat, v: int, t: Cache) {
    && hit == (exists p :: p in s.pins && p.hash == hash)
    && Pin(hash, page) in t.pins
    && if hit then t == s
    else
      && t.pins == s.pins + [Pin(hash, page)] && FrameFrom(pageNum, s, 0, page, v, t.freeList, t.used)
      && |t.levels| == |s.levels| && forall i :: 0 <= i < |s.levels| ==>
        && t.levels[i].lru == (if i == v then s.levels[i].lru[1..] else s.levels[i].lru)
        && t.levels[i].minPages == s.levels[i].minPages
  }

  ghost predicate Served(pageNum: nat, s: Cache, u: Use, page: nat, t: Cache) {
    match u
    case Get(level, hash) => exists hit, v :: Got(pageNum, s, level, hash, hit, page, v, t)
    case Map(hash) => exists hit, v :: Mapped(pageNum, s, hash, hit, page, v, t)
  }

  lemma ServedPin(pageNum: nat, s: Cache, u: Use, page: nat, t: Cache)
    requires Served(pageNum, s, u, page, t) && u.Map?
    ensures Pin(u.hash, page) in t.pins
  {
  }

  /** After get_page the newest of the level is this hash: with the page that was cached, or with an empty one. */
  ghost predicate GotNewest(s: Cache, level: nat, hash: nat, page: nat, t: Cache) {
    && level < |s.levels| == |t.levels|
    && var was, now := s.levels[level], t.levels[level];
    && now.lru != [] && now.lru[|now.lru| - 1].hash == hash && now.lru[|now.lru| - 1].page == page
    && (if hash in was.index then page == was.index[hash]
        else !now.lru[|now.lru| - 1].containsData && !now.lru[|now.lru| - 1].dirty)
  }

  lemma ServedNewest(pageNum: nat, s: Cache, u: Use, page: nat, t: Cache)
    requires Served(pageNum, s, u, page, t) && u.Get?
    ensures GotNewest(s, u.level, u.hash, page, t)
  {
    var hit, v :| Got(pageNum, s, u.level, u.hash, hit, page, v, t);
  }

  class PageCache {
    const pageNum: nat
    const levels: array<Level>
    var usedPageNum: nat
    var freeList: seq<nat>
    var table: seq<seq<int>>
    ghost var pins: seq<Pin>

    /** All agreements hold, with the frames of hand taken but not yet placed. */
    ghost predicate Holding(hand: multiset<nat>)
      reads this, levels
    {
      && usedPageNum <= pageNum && AllAgree(levels[..]) && TableHolds(table, pins)
      && Owned(freeList, levels[..], PinPages(pins), hand, usedPageNum)
    }

    ghost predicate Valid()
      reads this, levels
    {
      Holding(multiset{})
    }

    /** An empty cache whose levels keep at least the given numbers of pages. */
    constructor (pageNum: nat, minPages: seq<nat>)
      ensures Valid() && this.pageNum == pageNum && levels.Length == |minPages| && usedPageNum == 0 && freeList == []
      ensures pins == []
      ensures forall i :: 0 <= i < |minPages| ==> levels[i] == Level(map[], [], 0, minPages[i])
      ensures fresh(levels)
    {
      this.pageNum := pageNum;
      this.levels := new Level[|minPages|](i requires 0 <= i < |minPages| => Level(map[], [], 0, minPages[i]));
      this.usedPageNum, this.freeList, this.table, this.pins := 0, [], seq(LISTS, _ => []), [];
      new;
      EmptyBag(levels[..]);
    }

    lemma EmptyBag(ls: seq<Level>)
      requires forall i :: 0 <= i < |ls| ==> ls[i].lru == []
      ensures Bag(ls) == multiset{}
      decreases |ls|
    {
      if ls != [] {
        EmptyBag(ls[..|ls| - 1]);
      }
    }

    method FindInFreelist() returns (found: bool, page: nat)
      requires Valid()
      modifies this`freeList
      ensures if old(freeList) == [] then !found && Valid() && freeList == [] else
        found && page == old(freeList)[0] && freeList == old(freeList)[1..] && Holding(multiset{page})
    {
      found, page := false, 0;
      if |freeList| != 0 {
        OwnedFree(freeList, levels[..], PinPages(pins), usedPageNum);
        found, page, freeList := true, freeList[0], freeList[1..];
      }
    }

    /** Evicts the oldest page of the highest level from level on that has more than it must keep. */
    method FindInLowerLevel(level: nat) returns (found: bool, page: nat, ghost v: int)
      requires Valid()
      modifies levels
      ensures !found ==> NoVictim(old(levels[..]), level) && levels[..] == old(levels[..]) && Valid()
      ensures found ==>
        && IsVictim(old(levels[..]), level, v) && old(levels[v]).lru != [] && page == old(levels[v]).lru[0].page
        && levels[..] == old(levels[..])[v := Evicted(old(levels[v]))] && Holding(multiset{page})
      decreases levels.Length - level
    {
      hide Owned, Agrees, TableHolds;
      found, page, v := false, 0, -1;
      if level >= levels.Length {
        return;
      }
      if level + 1 < levels.Length {
        found, page, v := FindInLowerLevel(level + 1);
        if found {
          return;
        }
      }
      if levels[level].usedlru <= levels[level].minPages {
        return;
      }
      LevelCounts(levels[level]);
      OwnedEvicted(freeList, levels[..], PinPages(pins), usedPageNum, level);
      EvictedAgrees(levels[level]);
      page := levels[level].lru[0].page;
      levels[level] := Evicted(levels[level]);
      assert levels[..] == old(levels[..])[level := Evicted(old(levels[level]))];
      found, v := true, level;
    }

    lemma LevelCounts(l: Level)
      requires Agrees(l)
      ensures l.usedlru == |l.lru|
    {
    }

    /** A new entry for the frame in hand, the newest of its level. */
    method AddPageInLru(page: nat, level: nat, hash: nat)
      requires Holding(multiset{page}) && level < levels.Length && hash !in levels[level].index
      modifies levels
      ensures Valid() && levels[..] == old(levels[..])[level := Added(old(levels[level]), page, hash)]
    {
      hide Owned, Agrees, TableHolds;
      OwnedAdded(freeList, levels[..], PinPages(pins), usedPageNum, level, page, hash);
      AddedAgrees(levels[level], page, hash);
      levels[level] := Added(levels[level], page, hash);
      assert levels[..] == old(levels[..])[level := Added(old(levels[level]), page, hash)];
    }

    /** Entry i of a level becomes its newest. */
    method BumpPageInLru(level: nat, i: nat)
      requires Valid() && level < levels.Length && i < |levels[level].lru|
      modifies levels
      ensures Valid() && levels[..] == old(levels[..])[level := Bumped(old(levels[level]), i)]
    {
      hide Owned, Agrees, TableHolds;
      OwnedBumped(freeList, levels[..], PinPages(pins), usedPageNum, level, i);
      BumpedAgrees(levels[level], i);
      levels[level] := Bumped(levels[level], i);
      assert levels[..] == old(levels[..])[level := Bumped(old(levels[level]), i)];
    }

    /** There is a frame for a new page of this level. */
    ghost predicate Available(level: nat)
      reads this, levels
    {
      freeList != [] || usedPageNum < pageNum || !NoVictim(levels[..], level)
    }

    /** A frame that is in no use: from the free list, never used yet, or the oldest of a level that may lose it. */
    method TakeFrame(level: nat) returns (found: bool, page: nat, ghost v: int)
      requires Valid()
      modifies this`freeList, this`usedPageNum, levels
      ensures found == old(Available(level))
      ensures !found ==>
        Valid() && levels[..] == old(levels[..]) && freeList == old(freeList) && usedPageNum == old(usedPageNum)
      ensures found ==>
        Holding(multiset{page})
        && Taken(old(freeList), old(usedPageNum), pageNum, old(levels[..]), level, page, freeList, usedPageNum,
        levels[..], v)
    {
      hide Owned, Agrees, TableHolds;
      v := -1;
      found, page := FindInFreelist();
      if !found {
        if usedPageNum < pageNum {
          OwnedNew(freeList, levels[..], PinPages(pins), usedPageNum);
          found, page, usedPageNum := true, usedPageNum, usedPageNum + 1;
        } else {
          found, page, v := FindInLowerLevel(level);
        }
      }
    }

    /** get_page can serve the hash: it is cached, or there is a frame for it, or its own level has one to give up. */
    ghost predicate Servable(level: nat, hash: nat)
      requires level < levels.Length
      reads this, levels
    {
      hash in levels[level].index || Available(level) || levels[level].lru != []
    }

    /** The page for a hash of a level: the cached one, or a frame that now belongs to this hash.
        Not ok is where the code would follow the null pointer of an empty level. */
    method GetPage(level: nat, hash: nat) returns (ok: bool, hit: bool, page: nat, ghost v: int)
      requires Valid() && level < levels.Length
      modifies this`freeList, this`usedPageNum, levels
      ensures Valid() && ok == old(Servable(level, hash)) && hit == (hash in old(levels[level]).index)
      ensures
        var was := old(levels[..]);
        ok <==>
          || hash in was[level].index || old(freeList) != [] || old(usedPageNum) < pageNum || was[level].lru != []
          || exists i :: level <= i < |was| && was[i].usedlru > was[i].minPages
      ensures !ok ==> freeList == old(freeList) && usedPageNum == old(usedPageNum) && levels[..] == old(levels[..])
      ensures !ok ==> !Servable(level, hash)
      ensures ok ==> Newest(levels[level], hash, page)
      // a hit: only the place of the entry changes
      ensures hit ==>
        page == old(levels[level]).index[hash] && freeList == old(freeList) && usedPageNum == old(usedPageNum)
      ensures
        var was, now := old(levels[..]), levels[..];
        hit ==> exists i ::
          && 0 <= i < |was[level].lru| && was[level].lru[i].hash == hash && was[level].lru[i].page == page
          && now == was[level := was[level].(
            lru := was[level].lru[..i] + was[level].lru[i + 1..] + [was[level].lru[i]])]
      // a miss: where the frame comes from, and what it does to every list and index
      ensures
        var was := old(levels[..]);
        ok && !hit ==>
          if old(freeList) != [] then
            v == -1 && page == old(freeList)[0] && freeList == old(freeList)[1..] && usedPageNum == old(usedPageNum)
          else if old(usedPageNum) < pageNum then
            v == -1 && page == old(usedPageNum) == usedPageNum - 1 && freeList == []
          else
            && freeList == [] && usedPageNum == old(usedPageNum)
            && level <= v < |was| && was[v].lru != [] && page == was[v].lru[0].page
            && (forall i :: v < i < |was| ==> was[i].usedlru <= was[i].minPages)
            && (v == level || was[v].usedlru > was[v].minPages)
      ensures
        var was, now := old(levels[..]), levels[..];
        ok && !hit ==> forall i :: 0 <= i < |was| ==>
          && now[i].lru == (if i == v then was[i].lru[1..] else was[i].lru)
            + (if i == level then [Entry(hash, page, false, false)] else [])
          && (i == v ==> was[i].lru != [])
          && now[i].index == (if i == v then was[i].index - {was[i].lru[0].hash} else was[i].index)
            + (if i == level then map[hash := page] else map[])
          && now[i].minPages == was[i].minPages
      ensures forall i :: 0 <= i < levels.Length ==> levels[i].usedlru == |levels[i].lru|
    {
      hide Owned, TableHolds;
      v := -1;
      if hash in levels[level].index {
        var i := PlaceOf(level, hash);
        BumpedNewest(levels[level], i);
        hide Agrees, AllAgree, Newest;
        ok, hit, page := true, true, levels[level].index[hash];
        BumpPageInLru(level, i);
      } else {
        hit := false;
        ghost var free, used, ls := freeList, usedPageNum, levels[..];
        hide Agrees, AllAgree, Filled, Newest;
        ok, page, v := FillPage(level, hash);
        if ok {
          FilledMeans(free, used, pageNum, ls, level, hash, page, freeList, usedPageNum, levels[..], v);
          MissMeans(free, used, pageNum, ls, level, hash, page, freeList, usedPageNum, levels[..], v);
        } else {
          assert forall i :: 0 <= i < levels.Length ==> levels[i] == levels[..][i] == ls[i];
        }
      }
      CountsHold();
    }

    method FillPage(level: nat, hash: nat) returns (ok: bool, page: nat, ghost v: int)
      requires Valid() && level < levels.Length && hash !in levels[level].index
      modifies this`freeList, this`usedPageNum, levels
      ensures Valid() && ok == old(Available(level) || levels[level].lru != [])
      ensures !ok ==> freeList == old(freeList) && usedPageNum == old(usedPageNum) && levels[..] == old(levels[..])
      ensures ok ==> Filled(old(freeList), old(usedPageNum), pageNum, old(levels[..]), level, hash, page,
        freeList, usedPageNum, levels[..], v)
    {
      hide Owned, TableHolds;
      LevelCounts(levels[level]);
      hide Agrees;
      ok, page, v := TakeFrame(level);
      if ok {
        hide Evicted, Added;
        TakenLevel(old(freeList), old(usedPageNum), pageNum, old(levels[..]), level, page, freeList, usedPageNum,
          levels[..], v, hash);
      } else {
        assert levels[level] == levels[..][level] == old(levels[..])[level];
        if levels[level].lru == [] {
          return;
        }
        ok, page, v := true, levels[level].lru[0].page, level;
        OwnedEvicted(freeList, levels[..], PinPages(pins), usedPageNum, level);
        EvictedAgrees(levels[level]);
        levels[level] := Evicted(levels[level]);
        assert levels[..] == old(levels[..])[level := Evicted(old(levels[level]))];
      }
      ghost var w := levels[..];
      AddPageInLru(page, level, hash);
    }

    lemma CountsHold()
      requires Valid()
      ensures forall i :: 0 <= i < levels.Length ==> levels[i].usedlru == |levels[i].lru|
    {
      hide Owned, TableHolds;
      assert forall i :: 0 <= i < levels.Length ==> levels[i] == levels[..][i];
    }

    /** Where in its level's list an indexed hash is. */
    method PlaceOf(level: nat, hash: nat) returns (i: nat)
      requires level < levels.Length && Agrees(levels[level]) && hash in levels[level].index
      ensures i < |levels[level].lru| && levels[level].lru[i].hash == hash
      ensures levels[level].lru[i].page == levels[level].index[hash]
    {
      ghost var k :| 0 <= k < |levels[level].lru| && levels[level].lru[k].hash == hash;
      i := 0;
      while levels[level].lru[i].hash != hash
        invariant 0 <= i <= k
        decreases k - i
      {
        i := i + 1;
      }
    }

    // --- frames pinned for internal nodes ---

    /** The page pinned for a hash, or -1; makes the list that its slot is in. */
    method InternalNodeGet(hash: nat) returns (page: int)
      requires Valid() && hash < LISTS * ITEMS
      modifies this`table
      ensures Valid() && TableShape(table) && table[hash / ITEMS] != [] && page == Slot(table, hash)
      ensures TableShape(old(table)) && page == Slot(old(table), hash)
    {
      hide Owned, AllAgree;
      if table[hash / ITEMS] == [] {
        ListHolds(table, pins, hash / ITEMS);
        table := table[hash / ITEMS := seq(ITEMS, _ => -1)];
      }
      page := table[hash / ITEMS][hash % ITEMS];
    }

    method InternalNodeInsert(hash: nat, page: nat)
      requires Holding(multiset{page}) && hash < LISTS * ITEMS && table[hash / ITEMS] != [] && Slot(table, hash) == -1
      modifies this`table, this`pins
      ensures Valid() && pins == old(pins) + [Pin(hash, page)]
    {
      hide Owned, AllAgree;
      PinHolds(table, pins, hash, page);
      OwnedPinned(freeList, levels[..], PinPages(pins), usedPageNum, page);
      assert PinPages(pins + [Pin(hash, page)]) == PinPages(pins) + [page];
      table := table[hash / ITEMS := table[hash / ITEMS][hash % ITEMS := page]];
      pins := pins + [Pin(hash, page)];
    }

    /** map_internal_node_page can serve the hash: the table has a slot for it, and it is pinned or a frame can be. */
    ghost predicate Mappable(hash: nat)
      reads this, levels
    {
      hash < LISTS * ITEMS && ((exists p :: p in pins && p.hash == hash) || Available(0))
    }

    /** The page pinned for an internal node, pinning a frame for it at the first call.
        Not ok is where one of the code's assertions fails. */
    method MapInternalNodePage(hash: nat) returns (ok: bool, hit: bool, page: nat, ghost v: int)
      requires Valid()
      modifies this, levels
      ensures Valid() && ok == old(Mappable(hash)) && (!ok ==> !Mappable(hash))
      ensures
        var was := old(levels[..]);
        ok == (hash < LISTS * ITEMS && (
          || (exists p :: p in old(pins) && p.hash == hash) || old(freeList) != [] || old(usedPageNum) < pageNum
          || exists i :: 0 <= i < |was| && was[i].usedlru > was[i].minPages))
      ensures hit == (ok && exists p :: p in old(pins) && p.hash == hash)
      ensures !ok || hit ==>
        pins == old(pins) && levels[..] == old(levels[..]) && freeList == old(freeList)
        && usedPageNum == old(usedPageNum)
      ensures ok && !hit ==> pins == old(pins) + [Pin(hash, page)]
      ensures
        var was, now := old(levels[..]), levels[..];
        ok && !hit ==>
          if old(freeList) != [] then
            && v == -1 && page == old(freeList)[0] && freeList == old(freeList)[1..]
            && usedPageNum == old(usedPageNum) && now == was
          else if old(usedPageNum) < pageNum then
            v == -1 && page == old(usedPageNum) == usedPageNum - 1 && freeList == [] && now == was
          else
            && freeList == [] && usedPageNum == old(usedPageNum)
            && 0 <= v < |was| && was[v].usedlru > was[v].minPages && was[v].lru != [] && page == was[v].lru[0].page
            && (forall i :: v < i < |was| ==> was[i].usedlru <= was[i].minPages)
            && now == was[v := was[v].(index := was[v].index - {was[v].lru[0].hash}, lru := was[v].lru[1..],
              usedlru := was[v].usedlru - 1)]
      ensures ok ==> Pin(hash, page) in pins
    {
      hide Owned, AllAgree;
      ok, hit, page, v := false, false, 0, -1;
      if hash >= LISTS * ITEMS {
        return;
      }
      SlotMeans(table, pins, hash);
      var p := InternalNodeGet(hash);
      if p != -1 {
        return true, true, p, -1;
      }
      ok, page, v := TakeFrame(0);
      if ok {
        InternalNodeInsert(hash, page);
        assert pins[|old(pins)|] == Pin(hash, page);
      }
    }

    // --- every run of calls ---

    /** The call can be served now. */
    ghost predicate Serves(u: Use)
      reads this, levels
    {
      match u
      case Get(level, hash) => level < levels.Length && Servable(level, hash)
      case Map(hash) => Mappable(hash)
    }

    ghost function Now(): Cache
      reads this, levels
    {
      Cache(freeList, usedPageNum, levels[..], pins)
    }

    lemma NowIs()
      ensures Now() == Cache(freeList, usedPageNum, levels[..], pins)
    {
    }

    /** Makes one call. */
    method Serve(u: Use) returns (ok: bool, page: nat)
      requires Valid() && (u.Get? ==> u.level < levels.Length)
      modifies this, levels
      ensures Valid() && old(pins) <= pins && ok == old(Serves(u)) && (!ok ==> !Serves(u) && Now() == old(Now()))
      ensures ok ==> Served(pageNum, old(Now()), u, page, Now())
      ensures ok && u.Get? ==> forall p :: p in pins ==> p.page != page
    {
      hide Holding, Available, Newest, Agrees, AllAgree;
      match u {
        case Get(level, hash) =>
          var hit;
          ghost var v;
          ok, hit, page, v := GetPage(level, hash);
          if ok {
            NotPinned(level, hash, page);
            assert Got(pageNum, old(Now()), level, hash, hit, page, v, Now());
          }
        case Map(hash) =>
          var hit;
          ghost var v;
          ok, hit, page, v := MapInternalNodePage(hash);
          if ok {
            assert Mapped(pageNum, old(Now()), hash, hit, page, v, Now());
          }
      }
    }

    /** Makes calls, in order, as long as they can be served; the trace shows the cache before, between and after them.
        Pages pinned stay pinned, each to its hash, and no page that was pinned is ever handed out for anything else. */
    method Run(uses: seq<Use>) returns (pages: seq<nat>, ghost trace: seq<Cache>)
      requires Valid() && forall i :: 0 <= i < |uses| && uses[i].Get? ==> uses[i].level < levels.Length
      modifies this, levels
      ensures Valid() && old(pins) <= pins && |pages| <= |uses|
      ensures |pages| < |uses| ==> !Serves(uses[|pages|])
      ensures |trace| == |pages| + 1 && trace[0] == old(Now()) && trace[|pages|] == Now()
      ensures forall i :: 0 <= i < |pages| ==> Served(pageNum, trace[i], uses[i], pages[i], trace[i + 1])
      // a page handed out is the newest of its level, the one cached if there was one, and otherwise marked as empty
      ensures forall i :: 0 <= i < |pages| && uses[i].Get? ==>
        && uses[i].level < |trace[i].levels| == |trace[i + 1].levels|
        && var was, now := trace[i].levels[uses[i].level], trace[i + 1].levels[uses[i].level];
        && now.lru != [] && now.lru[|now.lru| - 1].hash == uses[i].hash && now.lru[|now.lru| - 1].page == pages[i]
        && (if uses[i].hash in was.index then pages[i] == was.index[uses[i].hash]
            else !now.lru[|now.lru| - 1].containsData && !now.lru[|now.lru| - 1].dirty)
      // what was given for internal nodes
      ensures forall i :: 0 <= i < |pages| && uses[i].Map? ==> Pin(uses[i].hash, pages[i]) in pins
      ensures forall i, j :: 0 <= i < j < |pages| && uses[i].Map? && uses[j].Map? ==>
        (uses[i].hash == uses[j].hash <==> pages[i] == pages[j])
      ensures forall i, j :: 0 <= i < j < |pages| && uses[i].Map? && uses[j].Get? ==> pages[i] != pages[j]
    {
      hide *;
      pages, trace := [], [Now()];
      RunStarts(uses, pins);
      while |pages| < |uses|
        invariant Valid() && old(pins) <= pins && |pages| <= |uses| && RunGave(uses, pages, pins)
        invariant |trace| == |pages| + 1 && trace[0] == old(Now()) && trace[|pages|] == Now()
        invariant forall i :: 0 <= i < |pages| ==> Served(pageNum, trace[i], uses[i], pages[i], trace[i + 1])
        decreases |uses| - |pages|
      {
        NowIs();
        ghost var before := pins;
        var ok, page := Serve(uses[|pages|]);
        NowIs();
        if !ok {
          break;
        }
        PinsApart();
        if uses[|pages|].Map? { ServedPin(pageNum, trace[|pages|], uses[|pages|], page, Now()); }
        RunGoesOn(uses, pages, before, pins, page);
        pages, trace := pages + [page], trace + [Now()];
      }
      AllNewest(pageNum, uses, pages, trace);
      GaveAll(uses, pages, pins);
    }

    /** The page a hash of a level was given is not pinned. */
    lemma NotPinned(level: nat, hash: nat, page: nat)
      requires Valid() && level < levels.Length && Newest(levels[level], hash, page)
      ensures forall p :: p in pins ==> p.page != page
    {
      forall p | p in pins
        ensures p.page != page
      {
        var i :| 0 <= i < |pins| && pins[i] == p;
        PinnedForever(i);
      }
    }

    /** Different pins have different hashes and different pages. */
    lemma PinsApart()
      requires Valid()
      ensures ApartPins(pins)
    {
      forall i, j | 0 <= i < j < |pins|
        ensures pins[i].hash != pins[j].hash && pins[i].page != pins[j].page
      {
        PinnedForever(i);
      }
    }

    /** A pinned frame is used for nothing else, whatever happened before. */
    lemma PinnedForever(i: nat)
      requires Valid() && i < |pins|
      ensures pins[i].page < usedPageNum && pins[i].page !in freeList && Slot(table, pins[i].hash) == pins[i].page
      ensures forall l, j :: 0 <= l < levels.Length && 0 <= j < |levels[l].lru| ==>
        levels[l].lru[j].page != pins[i].page
      ensures forall j :: 0 <= j < |pins| && j != i ==> pins[j].page != pins[i].page
    {
      var pages := PinPages(pins);
      PinnedAlone(freeList, levels[..], pages, usedPageNum, i);
      forall l, j | 0 <= l < levels.Length && 0 <= j < |levels[l].lru|
        ensures levels[l].lru[j].page != pins[i].page
      {
        BagHas(levels[..], l, j);
      }
      forall j | 0 <= j < |pins| && j != i
        ensures pins[j].page != pins[i].page
      {
        if pages[j] == pages[i] {
          TwiceIn(pages, if j < i then j else i, if j < i then i else j);
        }
      }
    }
  }

  ghost predicate ApartPins(pins: seq<Pin>) {
    forall i, j :: 0 <= i < j < |pins| ==> pins[i].hash != pins[j].hash && pins[i].page != pins[j].page
  }

  /** What the first calls of a run gave. */
  ghost predicate RunGave(uses: seq<Use>, pages: seq<nat>, pins: seq<Pin>) {
    && |pages| <= |uses|
    && (forall i :: 0 <= i < |pages| && uses[i].Map? ==> Pin(uses[i].hash, pages[i]) in pins)
    && (forall i, j :: 0 <= i < j < |pages| && uses[i].Map? && uses[j].Map? ==>
      (uses[i].hash == uses[j].hash <==> pages[i] == pages[j]))
    && (forall i, j :: 0 <= i < j < |pages| && uses[i].Map? && uses[j].Get? ==> pages[i] != pages[j])
  }

  lemma RunStarts(uses: seq<Use>, pins: seq<Pin>)
    ensures RunGave(uses, [], pins)
  {
  }

  lemma AllNewest(pageNum: nat, uses: seq<Use>, pages: seq<nat>, trace: seq<Cache>)
    requires |pages| <= |uses| && |trace| == |pages| + 1
    requires forall i :: 0 <= i < |pages| ==> Served(pageNum, trace[i], uses[i], pages[i], trace[i + 1])
    ensures forall i :: 0 <= i < |pages| && uses[i].Get? ==>
      && uses[i].level < |trace[i].levels| == |trace[i + 1].levels|
      && var was, now := trace[i].levels[uses[i].level], trace[i + 1].levels[uses[i].level];
      && now.lru != [] && now.lru[|now.lru| - 1].hash == uses[i].hash && now.lru[|now.lru| - 1].page == pages[i]
      && (if uses[i].hash in was.index then pages[i] == was.index[uses[i].hash]
          else !now.lru[|now.lru| - 1].containsData && !now.lru[|now.lru| - 1].dirty)
  {
    hide Served;
    forall i | 0 <= i < |pages| && uses[i].Get?
      ensures GotNewest(trace[i], uses[i].level, uses[i].hash, pages[i], trace[i + 1])
    {
      ServedNewest(pageNum, trace[i], uses[i], pages[i], trace[i + 1]);
    }
    assert forall i {:trigger trace[i]} :: 0 <= i < |pages| && uses[i].Get? ==>
      GotNewest(trace[i], uses[i].level, uses[i].hash, pages[i], trace[i + 1]);
  }

  lemma GaveAll(uses: seq<Use>, pages: seq<nat>, pins: seq<Pin>)
    requires RunGave(uses, pages, pins)
    ensures |pages| <= |uses|
    ensures forall i :: 0 <= i < |pages| && uses[i].Map? ==> Pin(uses[i].hash, pages[i]) in pins
    ensures forall i, j :: 0 <= i < j < |pages| && uses[i].Map? && uses[j].Map? ==>
      (uses[i].hash == uses[j].hash <==> pages[i] == pages[j])
    ensures forall i, j :: 0 <= i < j < |pages| && uses[i].Map? && uses[j].Get? ==> pages[i] != pages[j]
  {
  }

  lemma PinOnce(pins: seq<Pin>, p: Pin, q: Pin)
    requires ApartPins(pins) && p in pins && q in pins
    ensures p.hash == q.hash <==> p.page == q.page
  {
    var i :| 0 <= i < |pins| && pins[i] == p;
    var j :| 0 <= j < |pins| && pins[j] == q;
  }

  lemma RunGoesOn(uses: seq<Use>, pages: seq<nat>, pins: seq<Pin>, pins': seq<Pin>, page: nat)
    requires RunGave(uses, pages, pins) && |pages| < |uses| && pins <= pins' && ApartPins(pins')
    requires uses[|pages|].Map? ==> Pin(uses[|pages|].hash, page) in pins'
    requires uses[|pages|].Get? ==> forall p :: p in pins' ==> p.page != page
    ensures RunGave(uses, pages + [page], pins')
  {
    var n, pages' := |pages|, pages + [page];
    forall i | 0 <= i < |pages'| && uses[i].Map?
      ensures Pin(uses[i].hash, pages'[i]) in pins'
    {
      if i < n {
        var k :| 0 <= k < |pins| && pins[k] == Pin(uses[i].hash, pages[i]);
        assert pins'[k] == pins[k];
      }
    }
    forall i, j | 0 <= i < j < |pages'| && uses[i].Map? && uses[j].Map?
      ensures uses[i].hash == uses[j].hash <==> pages'[i] == pages'[j]
    {
      PinOnce(pins', Pin(uses[i].hash, pages'[i]), Pin(uses[j].hash, pages'[j]));
    }
    forall i, j | 0 <= i < j < |pages'| && uses[i].Map? && uses[j].Get?
      ensures pages'[i] != pages'[j]
    {
      if j == n {
        assert Pin(uses[i].hash, pages'[i]).page == pages'[i];
      }
    }
  }

  /** With its only frame pinned, a cache can serve neither a page nor another internal node. */
  method StuckWhenPinned() returns (first: bool, get: bool, second: bool)
    ensures first && !get && !second
  {
    hide Owned, AllAgree, TableHolds;
    var c := new PageCache(1, [1]);
    var hit, page;
    ghost var v;
    first, hit, page, v := c.MapInternalNodePage(0);
    get, hit, page, v := c.GetPage(0, 7);
    second, hit, page, v := c.MapInternalNodePage(1);
  }

  /** A level may get no page although a lower-numbered one has a page to spare. */
  method StuckBesideSpare() returns (first: bool, second: bool, third: bool, ghost spare: bool)
    ensures first && second && !third && spare
  {
    hide Owned, AllAgree, TableHolds;
    var c := new PageCache(2, [1, 1]);
    var hit, page;
    ghost var v;
    first, hit, page, v := c.GetPage(0, 5);
    second, hit, page, v := c.GetPage(0, 6);
    spare := c.levels[0].usedlru > c.levels[0].minPages;
    third, hit, page, v := c.GetPage(1, 7);
  }

  lemma TwiceIn(s: seq<nat>, i: nat, j: nat)
    requires i < j < |s| && s[i] == s[j]
    ensures multiset(s)[s[i]] >= 2
  {
    assert s == s[..i] + [s[i]] + s[i + 1..j] + [s[j]] + s[j + 1..];
  }

  lemma OwnedBumped(free: seq<nat>, ls: seq<Level>, pinned: seq<nat>, used: nat, level: nat, i: nat)
    requires Owned(free, ls, pinned, multiset{}, used) && level < |ls| && i < |ls[level].lru|
    ensures Owned(free, ls[level := Bumped(ls[level], i)], pinned, multiset{}, used)
  {
    var l, l' := ls[level], Bumped(ls[level], i);
    BumpedPages(l, i);
    BagUpdate(ls, level, l');
    hide Pages, Bumped;
    Cancel(Bag(ls[level := l']), Bag(ls), multiset(Pages(l.lru)));
  }

  /** The hash is the newest entry of its level, and indexed. */
  ghost predicate Newest(l: Level, hash: nat, page: nat) {
    && l.lru != [] && l.lru[|l.lru| - 1].hash == hash && l.lru[|l.lru| - 1].page == page
    && hash in l.index && l.index[hash] == page
  }

  lemma BumpedNewest(l: Level, i: nat)
    requires Agrees(l) && i < |l.lru|
    ensures Newest(Bumped(l, i), l.lru[i].hash, l.lru[i].page) && Bumped(l, i).index == l.index
  {
  }

  /** After a miss: a frame taken elsewhere has been added to the level, or the level's oldest frame changed hands. */
  ghost predicate Filled(free: seq<nat>, used: nat, pageNum: nat, ls: seq<Level>, level: nat, hash: nat, page: nat,
        free': seq<nat>, used': nat, ls': seq<Level>, v: int)
  {
    if free != [] || used < pageNum || !NoVictim(ls, level) then exists w ::
      && Taken(free, used, pageNum, ls, level, page, free', used', w, v)
      && level < |w| == |ls'| && ls' == w[level := Added(w[level], page, hash)]
    else
      && v == level < |ls| && ls[level].lru != [] && ls[level].usedlru > 0 && page == ls[level].lru[0].page
      && free' == free && used' == used && ls' == ls[level := Added(Evicted(ls[level]), page, hash)]
  }

  /** A miss makes the hash the newest of its level and drops at most one other: the oldest of level v. */
  lemma FilledMeans(free: seq<nat>, used: nat, pageNum: nat, ls: seq<Level>, level: nat, hash: nat, page: nat,
        free': seq<nat>, used': nat, ls': seq<Level>, v: int)
    requires Filled(free, used, pageNum, ls, level, hash, page, free', used', ls', v) && level < |ls|
    requires hash !in ls[level].index
    ensures |ls'| == |ls| && Newest(ls'[level], hash, page)
    ensures forall i, h :: 0 <= i < |ls| && h in ls[i].index && h !in ls'[i].index ==>
      i == v && ls[i].lru != [] && h == ls[i].lru[0].hash
  {
    if free != [] || used < pageNum || !NoVictim(ls, level) {
      var w :| Taken(free, used, pageNum, ls, level, page, free', used', w, v) && level < |w| == |ls'|
        && ls' == w[level := Added(w[level], page, hash)];
      TakenLevel(free, used, pageNum, ls, level, page, free', used', w, v, hash);
      AddedNewest(w[level], page, hash);
    } else {
      AddedNewest(Evicted(ls[level]), page, hash);
    }
  }

  /** What a miss does, spelt out: the frame's source, and each level's list and index. */
  lemma MissMeans(free: seq<nat>, used: nat, pageNum: nat, ls: seq<Level>, level: nat, hash: nat, page: nat,
        free': seq<nat>, used': nat, ls': seq<Level>, v: int)
    requires Filled(free, used, pageNum, ls, level, hash, page, free', used', ls', v) && level < |ls|
    ensures
      if free != [] then v == -1 && page == free[0] && free' == free[1..] && used' == used
      else if used < pageNum then v == -1 && page == used == used' - 1 && free' == free
      else
        && free' == free && used' == used && level <= v < |ls| && ls[v].lru != [] && page == ls[v].lru[0].page
        && (forall i :: v < i < |ls| ==> ls[i].usedlru <= ls[i].minPages)
        && (v == level || ls[v].usedlru > ls[v].minPages)
    ensures |ls'| == |ls| && forall i :: 0 <= i < |ls| ==>
      && ls'[i].lru == (if i == v then ls[i].lru[1..] else ls[i].lru)
        + (if i == level then [Entry(hash, page, false, false)] else [])
      && (i == v ==> ls[i].lru != [])
      && ls'[i].index == (if i == v then ls[i].index - {ls[i].lru[0].hash} else ls[i].index)
        + (if i == level then map[hash := page] else map[])
      && ls'[i].minPages == ls[i].minPages
  {
    if free != [] || used < pageNum || !NoVictim(ls, level) {
      var w :| Taken(free, used, pageNum, ls, level, page, free', used', w, v) && level < |w| == |ls'|
        && ls' == w[level := Added(w[level], page, hash)];
    }
  }

  lemma AddedNewest(l: Level, page: nat, hash: nat)
    ensures Newest(Added(l, page, hash), hash, page)
    ensures forall h :: h in l.index ==> h in Added(l, page, hash).index
  {
  }

  /** Where a frame came from, the sources tried in this order. */
  ghost predicate Taken(free: seq<nat>, used: nat, pageNum: nat, ls: seq<Level>, level: nat, page: nat, free': seq<nat>,
        used': nat, ls': seq<Level>, v: int)
  {
    if free != [] then page == free[0] && free' == free[1..] && used' == used && ls' == ls && v == -1
    else if used < pageNum then page == used && free' == free && used' == used + 1 && ls' == ls && v == -1
    else
      && IsVictim(ls, level, v) && ls[v].lru != [] && page == ls[v].lru[0].page
      && free' == free && used' == used && ls' == ls[v := Evicted(ls[v])]
  }

  lemma TakenLevel(free: seq<nat>, used: nat, pageNum: nat, ls: seq<Level>, level: nat, page: nat, free': seq<nat>,
        used': nat, ls': seq<Level>, v: int, hash: nat)
    requires Taken(free, used, pageNum, ls, level, page, free', used', ls', v) && level < |ls|
    requires hash !in ls[level].index
    ensures |ls'| == |ls| && hash !in ls'[level].index
    ensures forall i, h :: 0 <= i < |ls| && h in ls[i].index && h !in ls'[i].index ==>
      i == v && ls[i].lru != [] && h == ls[i].lru[0].hash
  {
  }

  lemma SlotMeans(table: seq<seq<int>>, pins: seq<Pin>, hash: nat)
    requires TableHolds(table, pins) && hash < LISTS * ITEMS
    ensures Slot(table, hash) != -1 <==> exists i :: 0 <= i < |pins| && pins[i].hash == hash
    ensures Slot(table, hash) != -1 ==> Slot(table, hash) >= 0 && Pin(hash, Slot(table, hash)) in pins
  {
    if Slot(table, hash) != -1 {
      var i :| 0 <= i < |pins| && pins[i].hash == hash;
      assert pins[i] == Pin(hash, Slot(table, hash));
    }
  }
}
