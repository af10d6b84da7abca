/** internal/metrics/latency.go: the bounded latency reservoir and its percentile snapshot. */
module Latency {

  const TWO_TO_THE_64: nat := 0x1_0000_0000_0000_0000

  /** The last `k` elements of `s`, or all of them. */
  function LastN<T>(s: seq<T>, k: nat): (r: seq<T>)
    ensures |r| == if |s| <= k then |s| else k
  {
    if |s| <= k then s else s[|s| - k..]
  }

  // ---------------------------------------------------------------- ranks

  /** `v` is the sample of rank `k` (counting from 0) among the samples `m`: `k` of the others
      are not greater and the rest are not smaller. No order of the samples is mentioned. */
  ghost predicate HasRank(m: multiset<int>, v: int, k: nat) {
    exists lo: multiset<int>, hi: multiset<int> :: Splits(m, lo, v, hi) && |lo| == k
  }

  ghost predicate Splits(m: multiset<int>, lo: multiset<int>, v: int, hi: multiset<int>) {
    && m == lo + multiset{v} + hi
    && (forall x :: x in lo ==> x <= v)
    && (forall x :: x in hi ==> v <= x)
  }

  /** A rank names one value, and a greater rank no smaller value. */
  lemma RanksAreMonotone(m: multiset<int>, v: int, j: nat, w: int, k: nat)
    requires HasRank(m, v, j) && HasRank(m, w, k) && j <= k
    ensures v <= w
    ensures j == k ==> v == w
  {
    RankBound(m, v, j, w, k);
    if j == k {
      RankBound(m, w, k, v, j);
    }
  }

  lemma RankBound(m: multiset<int>, v: int, j: nat, w: int, k: nat)
    requires HasRank(m, v, j) && HasRank(m, w, k) && j <= k
    ensures v <= w
  {
    var lo, hi :| Splits(m, lo, v, hi) && |lo| == j;
    var lo', hi' :| Splits(m, lo', w, hi') && |lo'| == k;
    if w < v {
      var small := lo' + multiset{w};
      forall x ensures small[x] <= lo[x] {
        assert m[x] == lo[x] + multiset{v}[x] + hi[x];
        assert m[x] == lo'[x] + multiset{w}[x] + hi'[x];
        assert x in small ==> hi[x] == 0;
      }
      SmallerIsFewer(small, lo);
      assert false;
    }
  }

  lemma SmallerIsFewer(a: multiset<int>, b: multiset<int>)
    requires forall x :: a[x] <= b[x]
    ensures |a| <= |b|
  {
    assert forall x | x in a :: a[x] <= b[x];
    assert a * b == a;
    assert b == a + (b - a);
  }

  // ------------------------------------------------------------- sorting

  ghost predicate Ordered(s: seq<int>) {
    forall i, j :: 0 <= i < j < |s| ==> s[i] <= s[j]
  }

  function Insert(x: int, s: seq<int>): (r: seq<int>)
    ensures multiset(r) == multiset(s) + multiset{x}
  {
    if s == [] || x <= s[0] then [x] + s
    else
      assert s == [s[0]] + s[1..];
      [s[0]] + Insert(x, s[1..])
  }

  lemma {:induction false} InsertKeepsOrder(x: int, s: seq<int>)
    requires Ordered(s)
    ensures Ordered(Insert(x, s))
  {
    if s != [] && s[0] < x {
      InsertKeepsOrder(x, s[1..]);
      var t := Insert(x, s[1..]);
      forall j | 0 <= j < |t| ensures s[0] <= t[j] {
        assert t[j] in multiset(t);
        assert t[j] == x || t[j] in multiset(s[1..]);
      }
    }
  }

  /** The library sort the snapshot calls: an ordered permutation. */
  function Sort(s: seq<int>): (r: seq<int>)
    ensures Ordered(r) && multiset(r) == multiset(s) && |r| == |s|
  {
    if s == [] then []
    else
      assert s == [s[0]] + s[1..];
      InsertKeepsOrder(s[0], Sort(s[1..]));
      SameSize(Insert(s[0], Sort(s[1..])), s);
      Insert(s[0], Sort(s[1..]))
  }

  lemma SameSize(a: seq<int>, b: seq<int>)
    requires multiset(a) == multiset(b)
    ensures |a| == |b|
  {
    assert |a| == |multiset(a)|;
  }

  lemma SortedRank(s: seq<int>, k: nat)
    requires k < |s|
    ensures HasRank(multiset(s), Sort(s)[k], k)
  {
    OrderedRank(Sort(s), k);
  }

  lemma OrderedRank(t: seq<int>, k: nat)
    requires Ordered(t) && k < |t|
    ensures HasRank(multiset(t), t[k], k)
  {
    var lo, hi := multiset(t[..k]), multiset(t[k + 1..]);
    assert multiset(t) == lo + multiset{t[k]} + hi by {
      assert t == t[..k] + [t[k]] + t[k + 1..];
    }
    forall x | x in lo ensures x <= t[k] {
      assert x in t[..k];
    }
    forall x | x in hi ensures t[k] <= x {
      assert x in t[k + 1..];
    }
    assert |lo| == |t[..k]| == k;
    assert Splits(multiset(t), lo, t[k], hi);
  }

  // ------------------------------------------------------------ snapshot

  datatype LatencyStats = LatencyStats(
    count: nat, totalRecorded: nat, min: int, p50: int, p95: int, p99: int, max: int)

  /** The index `pick` uses for a percentage, clamped to the last sample. */
  function RankOf(percent: nat, n: nat): (k: nat)
    requires n > 0
    ensures k < n
  {
    if percent * n / 100 >= n then n - 1 else percent * n / 100
  }

  /** What a snapshot of `samples` must say, whatever order they are kept in. */
  ghost predicate Describes(st: LatencyStats, samples: seq<int>)
    requires samples != []
  {
    var m, n := multiset(samples), |samples|;
    && st.count == n
    && HasRank(m, st.min, 0)
    && HasRank(m, st.p50, RankOf(50, n))
    && HasRank(m, st.p95, RankOf(95, n))
    && HasRank(m, st.p99, RankOf(99, n))
    && HasRank(m, st.max, n - 1)
  }

  /** `v` is the `percent`-th percentile of the samples: of all of them the one whose rank is the whole part of that
      percentage of their number. */
  ghost predicate IsPercentile(s: seq<int>, v: int, percent: nat) {
    exists k: nat :: 100 * k <= percent * |s| < 100 * (k + 1) && HasRank(multiset(s), v, k)
  }

  lemma RankIsPercent(s: seq<int>, v: int, percent: nat)
    requires s != [] && percent < 100 && HasRank(multiset(s), v, RankOf(percent, |s|))
    ensures IsPercentile(s, v, percent)
  {
    var k := RankOf(percent, |s|);
    assert percent * |s| < 100 * |s|;
    assert k == percent * |s| / 100;
  }

  /** The percentiles of a snapshot are those of the samples held. */
  lemma SnapshotHasPercentiles(st: LatencyStats, s: seq<int>)
    requires s != [] && Describes(st, s)
    ensures IsPercentile(s, st.p50, 50) && IsPercentile(s, st.p95, 95) && IsPercentile(s, st.p99, 99)
  {
    RankIsPercent(s, st.p50, 50);
    RankIsPercent(s, st.p95, 95);
    RankIsPercent(s, st.p99, 99);
  }

  /** The reported values are ordered, are samples, and bound every sample. */
  lemma SnapshotIsOrdered(st: LatencyStats, s: seq<int>)
    requires s != [] && Describes(st, s)
    ensures st.min <= st.p50 <= st.p95 <= st.p99 <= st.max
    ensures {st.min, st.p50, st.p95, st.p99, st.max} <= set x | x in s
    ensures forall x :: x in s ==> st.min <= x <= st.max
  {
    var m, n := multiset(s), |s|;
    RanksAreMonotone(m, st.min, 0, st.p50, RankOf(50, n));
    RanksAreMonotone(m, st.p50, RankOf(50, n), st.p95, RankOf(95, n));
    RanksAreMonotone(m, st.p95, RankOf(95, n), st.p99, RankOf(99, n));
    RanksAreMonotone(m, st.p99, RankOf(99, n), st.max, n - 1);
    assert st.min in m && st.p50 in m && st.p95 in m && st.p99 in m && st.max in m;
    forall x | x in s ensures st.min <= x <= st.max {
      EveryRankIsHeld(s, x);
      var k :| 0 <= k < n && HasRank(m, x, k);
      RanksAreMonotone(m, st.min, 0, x, k);
      RanksAreMonotone(m, x, k, st.max, n - 1);
    }
  }

  lemma EveryRankIsHeld(s: seq<int>, x: int)
    requires x in s
    ensures exists k :: 0 <= k < |s| && HasRank(multiset(s), x, k)
  {
    assert x in multiset(Sort(s));
    var k :| 0 <= k < |s| && Sort(s)[k] == x;
    SortedRank(s, k);
  }

  /** A snapshot is determined by the samples held: how the ring is rotated does not show. */
  lemma SnapshotIgnoresOrder(a: LatencyStats, b: LatencyStats, s: seq<int>, t: seq<int>)
    requires s != [] && t != [] && multiset(s) == multiset(t)
    requires Describes(a, s) && Describes(b, t)
    ensures a == b.(totalRecorded := a.totalRecorded)
  {
    var m, n := multiset(s), |s|;
    SameSize(s, t);
    RanksAreMonotone(m, a.min, 0, b.min, 0);
    RanksAreMonotone(m, a.p50, RankOf(50, n), b.p50, RankOf(50, n));
    RanksAreMonotone(m, a.p95, RankOf(95, n), b.p95, RankOf(95, n));
    RanksAreMonotone(m, a.p99, RankOf(99, n), b.p99, RankOf(99, n));
    RanksAreMonotone(m, a.max, n - 1, b.max, n - 1);
  }

  // ------------------------------------------------------------ recorder

  /** The samples of a ring, oldest first, when `i` is the next index to be overwritten. */
  function Unroll<T>(ring: seq<T>, i: nat): (s: seq<T>)
    requires i <= |ring|
  {
    ring[i..] + ring[..i]
  }

  lemma UnrollFromStart<T>(ring: seq<T>)
    ensures Unroll(ring, 0) == ring
  {
  }

  lemma UnrollKeepsSamples(ring: seq<int>, i: nat)
    requires i <= |ring|
    ensures multiset(Unroll(ring, i)) == multiset(ring) && |Unroll(ring, i)| == |ring|
  {
    assert ring == ring[..i] + ring[i..];
  }

  function NextIndex(i: nat, n: nat): (j: nat)
    requires i < n
    ensures j == if i + 1 < n then i + 1 else 0
  {
    (i + 1) % n
  }

  /** Overwriting the oldest sample and stepping the index drops it and appends the new one. */
  lemma OverwriteOldest<T>(ring: seq<T>, i: nat, x: T)
    requires i < |ring|
    ensures Unroll(ring[i := x], NextIndex(i, |ring|)) == Unroll(ring, i)[1..] + [x]
  {
    var after := Unroll(ring[i := x], NextIndex(i, |ring|));
    var want := Unroll(ring, i)[1..] + [x];
    assert |after| == |want|;
    forall k | 0 <= k < |ring| ensures after[k] == want[k] {
    }
  }

  lemma LastNExtends<T>(h: seq<T>, k: nat, x: T)
    requires k > 0
    ensures |h| < k ==> LastN(h + [x], k) == LastN(h, k) + [x]
    ensures |h| >= k ==> LastN(h + [x], k) == LastN(h, k)[1..] + [x]
  {
  }

  /** What one more observation leaves in the ring, and the next index to overwrite. */
  lemma RecordKeepsWindow<T>(ring: seq<T>, i: nat, k: nat, h: seq<T>, x: T)
    requires 0 < k && i <= |ring| && i < k && |ring| == |LastN(h, k)|
    requires Unroll(ring, i) == LastN(h, k)
    ensures |ring| < k && i == 0 ==> Unroll(ring + [x], 0) == LastN(h + [x], k)
    ensures |ring| == k ==> Unroll(ring[i := x], NextIndex(i, k)) == LastN(h + [x], k)
  {
    LastNExtends(h, k, x);
    if |ring| < k {
      UnrollFromStart(ring);
      UnrollFromStart(ring + [x]);
    } else {
      OverwriteOldest(ring, i, x);
    }
  }

  lemma CountWraps(n: nat)
    ensures (n % TWO_TO_THE_64 + 1) % TWO_TO_THE_64 == (n + 1) % TWO_TO_THE_64
  {
  }

  class LatencyRecorder {
    const capacity: nat
    const buffer: array<int>
    var len: nat
    var idx: nat
    var total: nat // a uint64: it wraps
    ghost var history: seq<int> // every observation ever recorded, oldest first

    /** The samples held, oldest first. */
    function Held(): (s: seq<int>)
      requires idx <= len <= buffer.Length
      reads this, buffer
    {
      Unroll(buffer[..len], idx)
    }

    ghost predicate Valid()
      reads this, buffer
    {
      && 0 < capacity == buffer.Length
      && idx <= len <= capacity
      && idx < capacity
      && len == (if |history| < capacity then |history| else capacity)
      && (len < capacity ==> idx == 0)
      && total == |history| % TWO_TO_THE_64
      && Held() == LastN(history, capacity)
    }

    constructor (cap: int)
      ensures Valid() && history == []
      ensures capacity == if cap <= 0 then 1 else cap
      ensures fresh(buffer)
    {
      capacity := if cap <= 0 then 1 else cap;
      buffer := new int[if cap <= 0 then 1 else cap];
      len, idx, total := 0, 0, 0;
      history := [];
    }

    method Record(d: int)
      requires Valid()
      modifies this`len, this`idx, this`total, this`history, buffer
      ensures Valid()
      ensures history == old(history) + [d]
      ensures Held() == LastN(old(history) + [d], capacity)
    {
      ghost var before := buffer[..len];
      RecordKeepsWindow(before, idx, capacity, history, d);
      CountWraps(|history|);
      history := history + [d];
      total := (total + 1) % TWO_TO_THE_64;
      if len < capacity {
        buffer[len] := d;
        len := len + 1;
        assert buffer[..len] == before + [d];
      } else {
        buffer[idx] := d;
        idx := NextIndex(idx, capacity);
        assert buffer[..len] == before[old(idx) := d];
      }
    }

    method Stats() returns (st: LatencyStats)
      requires Valid()
      ensures st.totalRecorded == |history| % TWO_TO_THE_64
      ensures history == [] ==> st == LatencyStats(0, 0, 0, 0, 0, 0, 0)
      ensures history != [] ==> Describes(st, LastN(history, capacity))
    {
      st := Snapshot(buffer[..len], total);
      if history != [] {
        UnrollKeepsSamples(buffer[..len], idx);
        SameDescription(st, buffer[..len], LastN(history, capacity));
      }
    }
  }

  /** Sorts a copy of the samples and picks the ranks. */
  function Snapshot(samples: seq<int>, total: nat): (st: LatencyStats)
    ensures st.totalRecorded == total
    ensures samples != [] ==> Describes(st, samples)
    ensures samples == [] ==> st == LatencyStats(0, total, 0, 0, 0, 0, 0)
  {
    var n := |samples|;
    if n == 0 then LatencyStats(0, total, 0, 0, 0, 0, 0)
    else
      var sorted := Sort(samples);
      var st := LatencyStats(n, total, sorted[0], sorted[RankOf(50, n)], sorted[RankOf(95, n)],
                             sorted[RankOf(99, n)], sorted[n - 1]);
      SortedRanks(samples);
      st
  }

  lemma SameDescription(st: LatencyStats, s: seq<int>, t: seq<int>)
    requires s != [] && Describes(st, s) && multiset(s) == multiset(t)
    ensures t != [] && Describes(st, t)
  {
    SameSize(s, t);
  }

  lemma SortedRanks(s: seq<int>)
    ensures forall k :: 0 <= k < |s| ==> HasRank(multiset(s), Sort(s)[k], k)
  {
    forall k | 0 <= k < |s| ensures HasRank(multiset(s), Sort(s)[k], k) {
      SortedRank(s, k);
    }
  }
}
