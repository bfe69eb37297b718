/** Which bucket a key belongs to, and shuffling an array. */
module KvUtil {
  import Crc

  const WRAP32 := 0x1_0000_0000
  const WRAP64 := 0x1_0000_0000_0000_0000

  const TWO_31 := 2147483648.0
  const TWO_53 := 9007199254740992.0
  const TWO_62 := 4611686018427387904.0

  type Word = k: int | 0 <= k < WRAP64

  // --- jump consistent hashing ---

  /** The next state of the key's random sequence. */
  function NextKey(key: Word): Word {
    (key * 2862933555777941757 + 1) % WRAP64
  }

  /** Where a key in bucket b jumps next: a function of the bucket and of the key's next state. */
  type Jump = (int, Word) -> int

  /** The linear congruential step of the code, modulo 2^64. */
  lemma NextKeyIs(key: Word)
    ensures 0 <= NextKey(key) < 0x1_0000_0000_0000_0000
    ensures exists q :: key as int * 2862933555777941757 + 1 == q * 0x1_0000_0000_0000_0000 + NextKey(key)
  {
    var a := key as int * 2862933555777941757 + 1;
    assert a == (a / WRAP64) * 0x1_0000_0000_0000_0000 + NextKey(key);
  }

  /** From every bucket that a 32-bit count allows, the jump goes at least one bucket further. */
  ghost predicate Ahead(jump: Jump) {
    forall b: int, k: Word :: 0 <= b < 0x7fff_ffff ==> jump(b, k) >= b + 1
  }

  /** A rounding that keeps the order and the numbers that double precision has: the integers up to 2^53, and 2^62. */
  ghost predicate Rounding(rd: real -> real) {
    && (forall x, y {:trigger rd(x), rd(y)} :: x <= y ==> rd(x) <= rd(y))
    && (forall x {:trigger rd(x)} :: 0.0 <= x <= TWO_53 && x.Floor as real == x ==> rd(x) == x)
    && rd(TWO_62) == TWO_62
  }

  /** Arithmetic whose results are rounded. */
  function Times(rd: real -> real, x: real, y: real): real {
    rd(x * y)
  }

  function Over(rd: real -> real, x: real, y: real): real {
    if y == 0.0 then 0.0 else rd(x / y)
  }

  /** a * (2^31 / d), each operation and conversion rounded. */
  function RoundedStep(rd: real -> real, a: real, d: real): real {
    Times(rd, rd(a), Over(rd, rd(TWO_31), rd(d)))
  }

  /** (b + 1) * (2^31 / (key / 2^33 + 1)), cut down to an integer. */
  function RoundedJump(rd: real -> real, b: int, key: Word): int {
    RoundedStep(rd, (b + 1) as real, (key / 0x2_0000_0000 + 1) as real).Floor
  }

  /** However its operations are rounded, the jump goes at least one bucket further and fits into 64 bits. */
  lemma RoundedJumpAhead(rd: real -> real, b: int, key: Word)
    requires Rounding(rd) && 0 <= b < 0x7fff_ffff
    ensures b + 1 <= RoundedJump(rd, b, key) < WRAP64 / 2
  {
    hide RoundedStep;
    var d := key / 0x2_0000_0000 + 1;
    RoundsInt(rd, d);
    RoundsInt(rd, b + 1);
    RoundedStepAhead(rd, (b + 1) as real, d as real);
  }

  lemma RoundedStepAhead(rd: real -> real, a: real, d: real)
    requires Rounding(rd) && 1.0 <= a <= TWO_31 && 1.0 <= d <= TWO_31 && rd(a) == a && rd(d) == d
    ensures a <= RoundedStep(rd, a, d) <= TWO_62
  {
    hide Over, Times;
    RoundsInt(rd, 0x8000_0000);
    OverBounds(rd, d);
    TimesBounds(rd, a, Over(rd, TWO_31, d));
  }

  lemma OverBounds(rd: real -> real, d: real)
    requires Rounding(rd) && 1.0 <= d <= TWO_31
    ensures 1.0 <= Over(rd, TWO_31, d) <= TWO_31
  {
    QuotientBounds(d);
    RoundsInt(rd, 1);
    RoundsInt(rd, 0x8000_0000);
    Between(rd, 1.0, TWO_31 / d, TWO_31);
  }

  lemma TimesBounds(rd: real -> real, a: real, q: real)
    requires Rounding(rd) && 1.0 <= a <= TWO_31 && rd(a) == a && 1.0 <= q <= TWO_31
    ensures a <= Times(rd, a, q) <= TWO_62
  {
    var product := ProductBounds(a, q);
    Between(rd, a, product, TWO_62);
  }

  lemma Between(rd: real -> real, x: real, y: real, z: real)
    requires Rounding(rd) && x <= y <= z && rd(x) == x && rd(z) == z
    ensures x <= rd(y) <= z
  {
  }

  lemma RoundsInt(rd: real -> real, n: int)
    requires Rounding(rd) && 0 <= n <= 0x8000_0000
    ensures rd(n as real) == n as real
  {
  }

  lemma QuotientBounds(d: real)
    requires 1.0 <= d <= TWO_31
    ensures 1.0 <= TWO_31 / d <= TWO_31
  {
  }

  lemma ProductBounds(a: real, q: real) returns (p: real)
    requires 1.0 <= a <= TWO_31 && 1.0 <= q <= TWO_31
    ensures p == a * q && a <= p
    ensures p <= TWO_62
  {
    p := a * q;
    ProductGrows(a, 1.0, q);
    ProductBelow(a, q, TWO_31);
    assert TWO_31 * TWO_31 == TWO_62;
  }

  lemma ProductBelow(a: real, q: real, m: real)
    requires 0.0 <= a <= m && 0.0 <= q <= m
    ensures a * q <= m * m
  {
    ProductGrows(a, q, m);
    ProductGrows(m, a, m);
    assert a * m == m * a;
  }

  lemma ProductGrows(x: real, y: real, z: real)
    requires 0.0 <= x && y <= z
    ensures x * y <= x * z
  {
  }

  /** In exact arithmetic, with d for the upper 31 bits of the key plus 1, the jump is (b + 1) * 2^31 / d rounded
      down. */
  lemma ExactJump(b: int, key: Word)
    requires b >= 0
    ensures
      var j, d := RoundedJump(x => x, b, key), key / 0x2_0000_0000 + 1;
      j * d <= (b + 1) * 0x8000_0000 < (j + 1) * d
  {
    var d := key / 0x2_0000_0000 + 1;
    var a, e := (b + 1) as real, d as real;
    var q := a * (TWO_31 / e);
    QuotientTimes(a, e);
    var j := q.Floor;
    ProductGrows(e, j as real, q);
    ProductLess(e, q, (j + 1) as real);
    WholeProduct(j, d);
    WholeProduct(j + 1, d);
    assert (b + 1) as real * TWO_31 == ((b + 1) * 0x8000_0000) as real;
  }

  lemma QuotientTimes(a: real, e: real)
    requires e >= 1.0
    ensures e * (a * (TWO_31 / e)) == a * TWO_31
  {
    var h := TWO_31 / e;
    assert h * e == TWO_31;
    assert e * (a * h) == a * (h * e);
  }

  lemma ProductLess(x: real, y: real, z: real)
    requires 0.0 < x && y < z
    ensures x * y < x * z
  {
  }

  lemma WholeProduct(j: int, d: int)
    ensures d as real * j as real == (j * d) as real
  {
  }

  /** So the jump in double precision is one to which everything below applies. */
  lemma RoundedAhead(rd: real -> real)
    requires Rounding(rd)
    ensures Ahead((b: int, k: Word) => RoundedJump(rd, b, k))
  {
    forall b: int, k: Word | 0 <= b < 0x7fff_ffff
      ensures RoundedJump(rd, b, k) >= b + 1
    {
      RoundedJumpAhead(rd, b, k);
    }
  }

  /** The last bucket below n that a key visits, from bucket b with its next jump to j. */
  function LastBelow(jump: Jump, key: Word, b: int, j: int, n: int): int
    requires Ahead(jump) && -1 <= b < j && n < 0x8000_0000
    decreases n - j
  {
    if j >= n then b else LastBelow(jump, NextKey(key), j, jump(j, NextKey(key)), n)
  }

  lemma {:induction false} LastBelowBounds(jump: Jump, key: Word, b: int, j: int, n: int)
    requires Ahead(jump) && -1 <= b < j && n < 0x8000_0000
    ensures b < n ==> b <= LastBelow(jump, key, b, j, n) < n
    ensures j < n ==> j <= LastBelow(jump, key, b, j, n)
    decreases n - j
  {
    if j < n {
      LastBelowBounds(jump, NextKey(key), j, jump(j, NextKey(key)), n);
    }
  }

  /** With more buckets a key stays where it was or goes to a new bucket. */
  lemma {:induction false} LastBelowGrows(jump: Jump, key: Word, b: int, j: int, m: int, n: int)
    requires Ahead(jump) && -1 <= b < j && m <= n < 0x8000_0000
    ensures
      var last := LastBelow(jump, key, b, j, n);
      last == LastBelow(jump, key, b, j, m) || last >= m
    decreases n - j
  {
    if j < m {
      LastBelowGrows(jump, NextKey(key), j, jump(j, NextKey(key)), m, n);
    } else {
      LastBelowBounds(jump, key, b, j, n);
    }
  }

  /** The bucket of a key: for no bucket at all, the all-ones word. */
  function Bucket(jump: Jump, key: Word, n: int): int
    requires Ahead(jump) && n < 0x8000_0000
  {
    Unsigned(LastBelow(jump, key, -1, 0, n))
  }

  lemma BucketInRange(jump: Jump, key: Word, n: int)
    requires Ahead(jump) && 1 <= n < 0x8000_0000
    ensures 0 <= Bucket(jump, key, n) < n
  {
    LastBelowBounds(jump, key, -1, 0, n);
  }

  lemma BucketsOnlyGrow(jump: Jump, key: Word, m: int, n: int)
    requires Ahead(jump) && 1 <= m <= n < 0x8000_0000
    ensures Bucket(jump, key, n) == Bucket(jump, key, m) || Bucket(jump, key, n) >= m
  {
    LastBelowBounds(jump, key, -1, 0, m);
    LastBelowBounds(jump, key, -1, 0, n);
    LastBelowGrows(jump, key, -1, 0, m, n);
  }

  /** The bucket, with the buckets visited on the way and the states of the key: each bucket is the jump from the one
      before it, and the jump from the last one is beyond the count. */
  method Hash(jump: Jump, key: Word, numBuckets: int)
    returns (bucket: nat, ghost visits: seq<int>, ghost keys: seq<Word>)
    requires Ahead(jump) && numBuckets < 0x8000_0000
    ensures bucket == Bucket(jump, key, numBuckets)
    ensures |keys| == |visits| + 1 && keys[0] == key
    ensures forall i :: 0 <= i < |visits| ==> keys[i + 1] == NextKey(keys[i])
    ensures forall i :: 0 <= i < |visits| - 1 ==> visits[i] < visits[i + 1] == jump(visits[i], keys[i + 1]) < numBuckets
    ensures 1 <= numBuckets ==>
      && visits != [] && visits[0] == 0 && bucket == visits[|visits| - 1] < numBuckets
      && jump(visits[|visits| - 1], keys[|visits|]) >= numBuckets
    ensures numBuckets <= 0 ==> visits == [] && bucket == 0xffff_ffff
  {
    hide *;
    BucketIs(jump, key, numBuckets);
    var k, b, j := key, -1, 0;
    visits, keys := [], [key];
    VisitedNone(jump, key, numBuckets);
    while j < numBuckets
      invariant -1 <= b < j
      invariant LastBelow(jump, k, b, j, numBuckets) == LastBelow(jump, key, -1, 0, numBuckets)
      invariant Visited(jump, key, numBuckets, visits, keys, k, b, j)
      decreases numBuckets - j
    {
      AheadAt(jump, j, NextKey(k));
      LastBelowStep(jump, k, b, j, numBuckets);
      VisitedMore(jump, key, numBuckets, visits, keys, k, b, j);
      b := j;
      k := NextKey(k);
      j := jump(b, k);
      visits, keys := visits + [b], keys + [k];
    }
    LastBelowStep(jump, k, b, j, numBuckets);
    bucket := Unsigned(b);
    VisitedAll(jump, key, numBuckets, visits, keys, k, b, j);
  }

  /** A 64-bit integer cut down to 32 bits without a sign. */
  function Unsigned(b: int): (u: nat)
    ensures 0 <= b < 0x8000_0000 ==> u == b
    ensures b == -1 ==> u == 0xffff_ffff
  {
    b % WRAP32
  }

  lemma BucketIs(jump: Jump, key: Word, n: int)
    requires Ahead(jump) && n < 0x8000_0000
    ensures Bucket(jump, key, n) == Unsigned(LastBelow(jump, key, -1, 0, n))
  {
  }

  lemma AheadAt(jump: Jump, j: int, k: Word)
    requires Ahead(jump) && 0 <= j < 0x7fff_ffff
    ensures jump(j, k) >= j + 1
  {
  }

  lemma LastBelowStep(jump: Jump, k: Word, b: int, j: int, n: int)
    requires Ahead(jump) && -1 <= b < j && n < 0x8000_0000
    ensures j >= n ==> LastBelow(jump, k, b, j, n) == b
    ensures j < n ==>
      j < jump(j, NextKey(k)) && LastBelow(jump, k, b, j, n) == LastBelow(jump, NextKey(k), j, jump(j, NextKey(k)), n)
  {
    hide NextKey;
  }

  ghost predicate KeysGo(keys: seq<Word>) {
    forall i :: 0 <= i < |keys| - 1 ==> keys[i + 1] == NextKey(keys[i])
  }

  ghost predicate JumpsGo(jump: Jump, n: int, visits: seq<int>, keys: seq<Word>) {
    |visits| <= |keys| && forall i :: 0 <= i < |visits| - 1 ==>
      visits[i] < visits[i + 1] == jump(visits[i], keys[i + 1]) < n
  }

  /** The loop is in bucket b with key k and is about to jump to j, after these visits. */
  ghost predicate Visited(jump: Jump, key: Word, n: int, visits: seq<int>, keys: seq<Word>, k: Word, b: int, j: int) {
    && |keys| == |visits| + 1 && keys[0] == key && keys[|visits|] == k && KeysGo(keys) && JumpsGo(jump, n, visits, keys)
    && if visits == [] then b == -1 && j == 0
       else visits[0] == 0 && visits[|visits| - 1] == b < n && j == jump(b, k)
  }

  lemma KeysGoOn(keys: seq<Word>)
    requires keys != [] && KeysGo(keys)
    ensures KeysGo(keys + [NextKey(keys[|keys| - 1])])
  {
    hide NextKey;
  }

  lemma JumpsGoOn(jump: Jump, n: int, visits: seq<int>, keys: seq<Word>, j: int, k: Word)
    requires JumpsGo(jump, n, visits, keys) && |keys| == |visits| + 1
    requires visits != [] ==>
      visits[|visits| - 1] < j == jump(visits[|visits| - 1], keys[|visits|]) < n
    ensures JumpsGo(jump, n, visits + [j], keys + [k])
  {
    forall i | 0 <= i < |visits|
      ensures
        var v := visits + [j];
        v[i] < v[i + 1] == jump(v[i], (keys + [k])[i + 1]) < n
    {
      if i + 1 < |visits| {
        assert visits[i] < visits[i + 1] == jump(visits[i], keys[i + 1]) < n;
      }
    }
  }

  lemma VisitedNone(jump: Jump, key: Word, n: int)
    ensures Visited(jump, key, n, [], [key], key, -1, 0)
  {
  }

  lemma VisitedMore(jump: Jump, key: Word, n: int, visits: seq<int>, keys: seq<Word>, k: Word, b: int, j: int)
    requires Visited(jump, key, n, visits, keys, k, b, j) && b < j < n
    ensures Visited(jump, key, n, visits + [j], keys + [NextKey(k)], NextKey(k), j, jump(j, NextKey(k)))
  {
    hide NextKey, KeysGo, JumpsGo;
    KeysGoOn(keys);
    JumpsGoOn(jump, n, visits, keys, j, NextKey(k));
  }

  lemma VisitedAll(jump: Jump, key: Word, n: int, visits: seq<int>, keys: seq<Word>, k: Word, b: int, j: int)
    requires Visited(jump, key, n, visits, keys, k, b, j) && n <= j
    ensures |keys| == |visits| + 1 && keys[0] == key
    ensures forall i :: 0 <= i < |visits| ==> keys[i + 1] == NextKey(keys[i])
    ensures forall i :: 0 <= i < |visits| - 1 ==> visits[i] < visits[i + 1] == jump(visits[i], keys[i + 1]) < n
    ensures 1 <= n ==>
      visits != [] && visits[0] == 0 && b == visits[|visits| - 1] < n && 0 <= b && jump(b, keys[|visits|]) >= n
    ensures n <= 0 ==> visits == [] && b == -1
  {
    VisitsGrow(visits);
  }

  lemma VisitsGrow(visits: seq<int>)
    requires forall i :: 0 <= i < |visits| - 1 ==> visits[i] < visits[i + 1]
    ensures forall i :: 0 <= i < |visits| ==> visits[0] <= visits[i]
  {
    if |visits| > 1 {
      VisitsGrow(visits[..|visits| - 1]);
      var n := |visits| - 1;
      assert forall i :: 0 <= i < n ==> visits[..n][i] == visits[i];
      assert visits[n - 1] < visits[n - 1 + 1];
    }
  }

  function ToWord(x: bv64): Word {
    x as int
  }

  /** A 32-bit count as the signed integer that it is passed on as: counts from 2^31 on read as negative. */
  function Signed(count: nat): int
    requires count < WRAP32
  {
    if count < 0x8000_0000 then count else count - WRAP32
  }

  lemma SignedIs(count: nat)
    requires count < WRAP32
    ensures Signed(count) == if count < 0x8000_0000 then count else count - WRAP32
  {
  }

  /** The bucket of a message, for jumps computed with rounding rd, with the buckets visited on the way. */
  method KvHash(rd: real -> real, key: seq<bv8>, numBuckets: nat)
    returns (bucket: nat, ghost visits: seq<int>, ghost keys: seq<Word>)
    requires Rounding(rd) && numBuckets < WRAP32
    ensures Ahead((b: int, k: Word) => RoundedJump(rd, b, k))
    ensures bucket == Bucket((b: int, k: Word) => RoundedJump(rd, b, k),
        ToWord(Crc.Serial(0, Crc.MessageBits(key))), Signed(numBuckets))
    ensures |keys| == |visits| + 1 && keys[0] == Crc.Serial(0, Crc.MessageBits(key)) as int
    ensures forall i :: 0 <= i < |visits| ==> keys[i + 1] == NextKey(keys[i])
    ensures forall i :: 0 <= i < |visits| - 1 ==>
      visits[i] < visits[i + 1] == RoundedJump(rd, visits[i], keys[i + 1]) < numBuckets
    ensures 1 <= numBuckets < 0x8000_0000 ==>
      && visits != [] && visits[0] == 0 && bucket == visits[|visits| - 1] < numBuckets
      && RoundedJump(rd, visits[|visits| - 1], keys[|visits|]) >= numBuckets
    ensures numBuckets == 0 || numBuckets >= 0x8000_0000 ==> visits == [] && bucket == 0xffff_ffff
  {
    RoundedAhead(rd);
    var jump: Jump := (b: int, k: Word) => RoundedJump(rd, b, k);
    hide *;
    SignedIs(numBuckets);
    var crc := Crc.Crc64(key);
    bucket, visits, keys := Hash(jump, ToWord(crc), Signed(numBuckets));
  }

  // --- shuffling ---

  const RAND_MAX := 0x7fff_ffff

  type Draw = r: int | 0 <= r <= RAND_MAX

  /** How far ahead of place i a draw reaches when n - i places are left. */
  function Reach(r: Draw, left: int): int
    requires left > 0
  {
    r / (RAND_MAX / left + 1)
  }

  /** A draw, between 0 and 2^31 - 1, is divided by the width of one of left equal parts of its range. */
  lemma ReachIs(r: Draw, left: int)
    requires left > 0
    ensures
      var width := 0x7fff_ffff / left + 1;
      Reach(r, left) * width <= r < (Reach(r, left) + 1) * width
  {
    var d := RAND_MAX / left + 1;
    assert r == d * (r / d) + r % d;
  }

  lemma ReachWithin(r: Draw, left: int)
    requires left > 0
    ensures 0 <= Reach(r, left) < left
  {
    var q := RAND_MAX / left;
    var d := q + 1;
    assert RAND_MAX == q * left + RAND_MAX % left;
    assert RAND_MAX < d * left;
    Below(r, d, left);
  }

  lemma Product(q: int, d: int, e: int)
    requires 0 <= q && d <= e
    ensures q * d <= q * e
  {
  }

  lemma Below(r: int, d: int, n: int)
    requires 0 <= r < d * n && 1 <= d
    ensures 0 <= r / d < n
  {
    var q := r / d;
    assert r == q * d + r % d;
    if q >= n {
      Product(d, n, q);
    }
    if q < 0 {
      Product(d, q, -1);
    }
  }

  /** Places i and j exchanged. */
  function Swapped(s: seq<Word>, i: nat, j: nat): (t: seq<Word>)
    requires i < |s| && j < |s|
    ensures |t| == |s|
  {
    s[j := s[i]][i := s[j]]
  }

  lemma SwapPermutes(s: seq<Word>, i: nat, j: nat)
    requires i < |s| && j < |s|
    ensures multiset(Swapped(s, i, j)) == multiset(s)
  {
  }

  /** What the draw for place i exchanges it with. */
  function Target(draws: seq<Draw>, i: nat, n: nat): (j: nat)
    requires i < n && i < |draws|
    ensures i <= j < n
  {
    ReachWithin(draws[i], n - i);
    i + Reach(draws[i], n - i)
  }

  /** The array after places from.. have been swapped with later ones as the draws say. */
  function Shuffled(s: seq<Word>, draws: seq<Draw>, from: nat): (t: seq<Word>)
    requires from <= |s| && |draws| + 1 >= |s|
    ensures |t| == |s| && t[..from] == s[..from]
    decreases |s| - from
  {
    if from + 1 >= |s| then s else
      var t := Swapped(s, from, Target(draws, from, |s|));
      var u := Shuffled(t, draws, from + 1);
      assert u[..from] == u[..from + 1][..from] == t[..from + 1][..from] == t[..from] == s[..from];
      u
  }

  lemma ShuffledStep(s: seq<Word>, draws: seq<Draw>, from: nat)
    requires from + 1 < |s| <= |draws| + 1
    ensures Shuffled(s, draws, from) == Shuffled(Swapped(s, from, Target(draws, from, |s|)), draws, from + 1)
  {
  }

  lemma ShuffledEnd(s: seq<Word>, draws: seq<Draw>)
    requires |draws| + 1 >= |s|
    ensures Shuffled(s, draws, if |s| > 1 then |s| - 1 else 0) == s
  {
  }

  lemma {:induction false} ShuffledPermutes(s: seq<Word>, draws: seq<Draw>, from: nat)
    requires from <= |s| && |draws| + 1 >= |s|
    ensures multiset(Shuffled(s, draws, from)) == multiset(s)
    decreases |s| - from
  {
    if from + 1 < |s| {
      ShuffledStep(s, draws, from);
      hide Shuffled, Swapped, Target;
      SwapPermutes(s, from, Target(draws, from, |s|));
      ShuffledPermutes(Swapped(s, from, Target(draws, from, |s|)), draws, from + 1);
    }
  }

  // --- which arrangements a shuffle can give ---

  /** With this many places left, the draws reach every one of them. */
  predicate Full(left: int)
    requires left > 0
  {
    (left - 1) * (RAND_MAX / left + 1) <= RAND_MAX
  }

  /** A place that some draw reaches, and the least draw that does. */
  lemma FullReaches(left: int, ahead: int) returns (r: Draw)
    requires left > 0 && Full(left) && 0 <= ahead < left
    ensures Reach(r, left) == ahead
  {
    var d := RAND_MAX / left + 1;
    Product(d, ahead, left - 1);
    r := ahead * d;
    DividesTo(r, d, ahead, 0);
  }

  lemma DividesTo(a: int, d: int, q: int, r: int)
    requires a == d * q + r && 0 <= r < d
    ensures a / d == q
  {
    var p := a / d;
    assert a == d * p + a % d;
    if p < q {
      Product(d, p + 1, q);
    } else if q < p {
      Product(d, q + 1, p);
    }
  }

  lemma NotFullMisses(left: int, r: Draw)
    requires left > 0 && !Full(left)
    ensures Reach(r, left) != left - 1
  {
    var d := RAND_MAX / left + 1;
    assert r == d * (r / d) + r % d;
  }

  /** Only the draws for the places still to come matter. */
  lemma {:induction false} ShuffledSame(s: seq<Word>, draws: seq<Draw>, draws': seq<Draw>, from: nat)
    requires from <= |s| && |draws| + 1 >= |s| && |draws'| + 1 >= |s|
    requires forall i :: from <= i < |draws| && i < |draws'| ==> draws[i] == draws'[i]
    ensures Shuffled(s, draws, from) == Shuffled(s, draws', from)
    decreases |s| - from
  {
    if from + 1 < |s| {
      ShuffledSame(Swapped(s, from, Target(draws, from, |s|)), draws, draws', from + 1);
    }
  }

  /** Some draws make t of s. */
  ghost predicate Reached(s: seq<Word>, t: seq<Word>) {
    exists draws: seq<Draw> :: |draws| == |s| && Shuffled(s, draws, 0) == t
  }

  lemma MultisetSplit(s: seq<Word>, k: nat)
    requires k <= |s|
    ensures multiset(s[k..]) == multiset(s) - multiset(s[..k])
  {
    assert s == s[..k] + s[k..];
  }

  /** An element of t from place from on is somewhere from there on in s, too. */
  lemma FindFrom(s: seq<Word>, t: seq<Word>, from: nat) returns (j: nat)
    requires from < |s| == |t| && multiset(s) == multiset(t) && s[..from] == t[..from]
    ensures from <= j < |s| && s[j] == t[from]
  {
    MultisetSplit(s, from);
    MultisetSplit(t, from);
    assert multiset(s[from..]) == multiset(t[from..]);
    assert t[from] == t[from..][0] && t[from] in multiset(s[from..]);
    var k :| 0 <= k < |s[from..]| && s[from..][k] == t[from];
    j := from + k;
  }

  /** With one place left, two arrangements of the same elements that agree before it are equal. */
  lemma LastPlace(s: seq<Word>, t: seq<Word>, from: nat)
    requires from <= |s| == |t| <= from + 1 && multiset(s) == multiset(t) && s[..from] == t[..from]
    ensures s == t
  {
    if from < |s| {
      var j := FindFrom(s, t, from);
    }
    assert s == s[..from] + s[from..] && t == t[..from] + t[from..];
  }

  lemma PlaceRight(s: seq<Word>, t: seq<Word>, from: nat, j: nat)
    requires from <= j < |s| == |t| && s[..from] == t[..from] && s[j] == t[from]
    ensures Swapped(s, from, j)[..from + 1] == t[..from + 1]
  {
    assert Swapped(s, from, j)[..from] == s[..from];
    assert t[..from + 1] == t[..from] + [t[from]];
    assert Swapped(s, from, j)[..from + 1] == Swapped(s, from, j)[..from] + [s[j]];
  }

  /** When these draws arrange the rest, so do they with the draw for this place in front. */
  lemma OnePlace(s: seq<Word>, t: seq<Word>, from: nat, j: nat, r: Draw, rest: seq<Draw>)
    requires from + 1 < |s| == |rest| && from <= j < |s| && Reach(r, |s| - from) == j - from
    requires Shuffled(Swapped(s, from, j), rest, from + 1) == t
    ensures Shuffled(s, rest[from := r], from) == t
  {
    hide Shuffled, Swapped, Reach;
    var draws := rest[from := r];
    assert Target(draws, from, |s|) == j;
    ShuffledStep(s, draws, from);
    ShuffledSame(Swapped(s, from, j), rest, draws, from + 1);
  }

  lemma {:induction false} Arranged(s: seq<Word>, t: seq<Word>, from: nat) returns (draws: seq<Draw>)
    requires from <= |s| == |t| && multiset(s) == multiset(t) && s[..from] == t[..from]
    requires forall left :: 2 <= left <= |s| - from ==> Full(left)
    ensures |draws| == |s| && Shuffled(s, draws, from) == t
    decreases |s| - from
  {
    if from + 1 >= |s| {
      draws := seq(|s|, _ => 0);
      LastPlace(s, t, from);
    } else {
      hide *;
      var j := FindFrom(s, t, from);
      var r := FullReaches(|s| - from, j - from);
      SwapPermutes(s, from, j);
      PlaceRight(s, t, from, j);
      draws := Arranged(Swapped(s, from, j), t, from + 1);
      OnePlace(s, t, from, j, r, draws);
      draws := draws[from := r];
    }
  }

  /** When every place is reached at each step, so is every arrangement. */
  lemma AllReached(s: seq<Word>, t: seq<Word>)
    requires multiset(s) == multiset(t) && forall left :: 2 <= left <= |s| ==> Full(left)
    ensures Reached(s, t)
  {
    assert |multiset(s)| == |multiset(t)|;
    var draws := Arranged(s, t, 0);
  }

  ghost predicate Distinct(s: seq<Word>) {
    forall i, j :: 0 <= i < j < |s| ==> s[i] != s[j]
  }

  /** No draws leave the first places alone and bring the last element to the place where it is out of reach. */
  lemma {:induction false} NeverBrought(s: seq<Word>, draws: seq<Draw>, from: nat, left: nat)
    requires 2 <= left <= |s| - from && !Full(left) && Distinct(s) && |draws| + 1 >= |s|
    ensures Shuffled(s, draws, from) != Swapped(s, |s| - left, |s| - 1)
    decreases |s| - from
  {
    var n := |s| - from;
    var j := Target(draws, from, |s|);
    var s' := Swapped(s, from, j);
    var u := Shuffled(s', draws, from + 1);
    assert u[from] == u[..from + 1][from] == s'[from] == s[j];
    if left == n {
      NotFullMisses(n, draws[from]);
    } else if j == from {
      assert s' == s;
      NeverBrought(s, draws, from + 1, left);
    }
  }

  lemma NotReached(s: seq<Word>, left: nat) returns (t: seq<Word>)
    requires 2 <= left <= |s| && !Full(left) && Distinct(s)
    ensures multiset(t) == multiset(s) && !Reached(s, t)
  {
    t := Swapped(s, |s| - left, |s| - 1);
    SwapPermutes(s, |s| - left, |s| - 1);
    forall draws: seq<Draw> | |draws| == |s|
      ensures Shuffled(s, draws, 0) != t
    {
      NeverBrought(s, draws, 0, left);
    }
  }

  /** The least number of places of which one is out of reach. */
  const TOO_MANY := 46410

  lemma FullBelow(left: int)
    requires 1 <= left < TOO_MANY
    ensures Full(left)
  {
    if left <= 46341 {
      Product(left, left - 1, 46340);
      Product(46340, left, 46341);
      SmallFull(left);
    } else {
      FullAround(left - 46341);
    }
  }

  /** RAND_MAX goes 46340 - e times into 46341 + e, and 41707 + e + e * e are left over. */
  lemma FullAround(e: int)
    requires 1 <= e <= 68
    ensures Full(46341 + e)
  {
    var left := 46341 + e;
    Expanded(e);
    Product(e, e, 68);
    DividesTo(RAND_MAX, left, 46340 - e, 41707 + e + e * e);
    assert RAND_MAX / left + 1 == 46341 - e;
  }

  lemma Expanded(e: int)
    ensures (46341 + e) * (46340 - e) == 2147441940 - e - e * e
    ensures (46340 + e) * (46341 - e) == 2147441940 + e - e * e
  {
    assert (46341 + e) * (46340 - e) == 46341 * 46340 - 46341 * e + e * 46340 - e * e;
    assert (46340 + e) * (46341 - e) == 46340 * 46341 - 46340 * e + e * 46341 - e * e;
  }

  lemma SmallFull(left: int)
    requires 1 <= left && left * (left - 1) <= RAND_MAX
    ensures Full(left)
  {
    var q, rest := RAND_MAX / left, RAND_MAX % left;
    assert RAND_MAX == q * left + rest;
    if q < left - 1 {
      Product(left, q + 1, left - 1);
    }
    assert (left - 1) * (q + 1) == q * left + left - 1 - q;
  }

  /** Every arrangement of distinct elements comes up exactly if there are fewer than 46410 of them. */
  lemma ShuffleReaches(s: seq<Word>)
    requires Distinct(s)
    ensures (forall t: seq<Word> :: multiset(t) == multiset(s) ==> Reached(s, t)) <==> |s| < TOO_MANY
  {
    if |s| < TOO_MANY {
      forall left | 2 <= left <= |s|
        ensures Full(left)
      {
        FullBelow(left);
      }
      forall t: seq<Word> | multiset(t) == multiset(s)
        ensures Reached(s, t)
      {
        AllReached(s, t);
      }
    } else {
      assert RAND_MAX / TOO_MANY == 46272 && !Full(TOO_MANY);
      var t := NotReached(s, TOO_MANY);
    }
  }

  /** Draws come from outside: draws[i] is the one made for place i. The states of the array show the exchanges, of
      place i with places[i]. */
  method KvShuffle(words: array<Word>, draws: seq<Draw>) returns (ghost states: seq<seq<Word>>, ghost places: seq<nat>)
    requires |draws| + 1 >= words.Length
    modifies words
    ensures words[..] == Shuffled(old(words[..]), draws, 0)
    ensures multiset(words[..]) == multiset(old(words[..]))
    ensures |places| == (if words.Length > 1 then words.Length - 1 else 0) && |states| == |places| + 1
    ensures states[0] == old(words[..]) && states[|places|] == words[..]
    ensures forall i :: 0 <= i < |places| ==> places[i] == i + Reach(draws[i], words.Length - i)
    ensures forall i :: 0 <= i < |places| ==>
      && i <= places[i] < words.Length == |states[i]|
      && states[i + 1] == states[i][i := states[i][places[i]]][places[i] := states[i][i]]
  {
    hide *;
    var n := words.Length;
    ghost var was := words[..];
    ExchangesNone(was, n);
    states, places := [was], [];
    if n > 1 {
      var i := 0;
      while i < n - 1
        invariant 0 <= i <= n - 1
        invariant Shuffled(words[..], draws, i) == Shuffled(was, draws, 0)
        invariant |places| == i && |states| == i + 1 && states[0] == was && states[i] == words[..]
        invariant forall k :: 0 <= k < i ==> places[k] == k + Reach(draws[k], n - k)
        invariant Exchanges(states, places, n)
      {
        ReachWithin(draws[i], n - i);
        ghost var s := words[..];
        ShuffledStep(s, draws, i);
        var j := i + Reach(draws[i], n - i);
        Exchange(words, i, j);
        ExchangesMore(states, places, n, words[..], j);
        SwappedIs(s, draws, i);
        states, places := states + [words[..]], places + [j];
        i := i + 1;
      }
    }
    assert Shuffled(words[..], draws, if n > 1 then n - 1 else 0) == words[..] by { ShuffledEnd(words[..], draws); }
    ShuffledPermutes(was, draws, 0);
    ExchangesAre(states, places, n);
  }

  ghost predicate Exchanges(states: seq<seq<Word>>, places: seq<nat>, n: nat) {
    |states| == |places| + 1 && forall k :: 0 <= k < |places| ==>
      && k <= places[k] < n == |states[k]|
      && states[k + 1] == states[k][k := states[k][places[k]]][places[k] := states[k][k]]
  }

  lemma ExchangesNone(s: seq<Word>, n: nat)
    ensures Exchanges([s], [], n)
  {
  }

  lemma ExchangesMore(states: seq<seq<Word>>, places: seq<nat>, n: nat, t: seq<Word>, j: nat)
    requires Exchanges(states, places, n)
    requires
      var i, s := |places|, states[|places|];
      i <= j < n == |s| && t == s[i := s[j]][j := s[i]]
    ensures Exchanges(states + [t], places + [j], n)
  {
  }

  lemma ExchangesAre(states: seq<seq<Word>>, places: seq<nat>, n: nat)
    requires Exchanges(states, places, n)
    ensures forall i :: 0 <= i < |places| ==>
      && i <= places[i] < n == |states[i]|
      && states[i + 1] == states[i][i := states[i][places[i]]][places[i] := states[i][i]]
  {
  }

  method Exchange(words: array<Word>, i: nat, j: nat)
    requires i < words.Length && j < words.Length
    modifies words
    ensures words[..] == old(words[..])[i := old(words[j])][j := old(words[i])]
  {
    var t := words[j];
    words[j] := words[i];
    words[i] := t;
  }

  lemma SwappedIs(s: seq<Word>, draws: seq<Draw>, i: nat)
    requires i + 1 < |s| <= |draws| + 1
    ensures
      var j := i + Reach(draws[i], |s| - i);
      i <= j < |s| && Swapped(s, i, Target(draws, i, |s|)) == s[i := s[j]][j := s[i]]
  {
    ReachWithin(draws[i], |s| - i);
    hide Reach;
    var j := i + Reach(draws[i], |s| - i);
    assert s[j := s[i]][i := s[j]] == s[i := s[j]][j := s[i]];
  }
}
