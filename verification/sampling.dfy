/** The stratified index sampler of headers/DataProcessing.h
    (lantern::data::GetRandomSampleClassIndex).

    Randomness is an input: `draws` is the stream of values the Mersenne
    Twister would have produced, and Pick turns one of them into the value
    std::uniform_int_distribution returns for a closed range. Because every
    value of the range is reachable (PickCovers), a property proved for every
    stream holds for every run. The source's `while(true)` reject loops have
    no bound; here a finite stream bounds the number of attempts and running
    out of it is the failure RetriesExhausted. */
module Sampling {
  import opened Wrappers

  datatype SampleError = RetriesExhausted

  /** Populations up to this size skip stratification and are shuffled whole. */
  const SmallPopulation: nat := 20

  /** The value uniform_int_distribution(lo, hi) yields for stream value v. */
  function Pick(lo: nat, hi: nat, v: nat): (r: nat)
    requires lo <= hi
    ensures lo <= r <= hi
  {
    lo + v % (hi - lo + 1)
  }

  /** Every value of the closed range is drawn by some stream value. */
  lemma PickCovers(lo: nat, hi: nat, x: nat)
    requires lo <= x <= hi
    ensures Pick(lo, hi, x - lo) == x
  {
  }

  /** The stream value used by the k-th draw; a stream that is too short
      reads as zeros. */
  function Draw(draws: seq<nat>, k: nat): nat
  {
    if k < |draws| then draws[k] else 0
  }

  function Sum(s: seq<nat>): nat
  {
    if s == [] then 0 else Sum(s[..|s| - 1]) + s[|s| - 1]
  }

  /** 0, 1, ..., n - 1. */
  function Iota(n: nat): (r: seq<nat>)
    ensures |r| == n && forall i :: 0 <= i < n ==> r[i] == i
  {
    seq(n, i requires 0 <= i < n => i)
  }

  predicate Distinct(s: seq<nat>)
  {
    forall i, j :: 0 <= i < j < |s| ==> s[i] != s[j]
  }

  function ToSet(s: seq<nat>): set<nat>
  {
    set x | x in s
  }

  /** The values of [lo, hi] not yet in `used`. */
  function Free(lo: nat, hi: int, used: set<nat>): set<nat>
  {
    set x: nat | lo <= x <= hi && x !in used
  }

  /** The per-class quota size_each_sample = (B - B % k) / k. */
  function Quota(batchSize: nat, classes: nat): nat
    requires classes >= 1
  {
    (batchSize - batchSize % classes) / classes
  }

  /** The closed range class c's quota is drawn from: [prefix, prefix + size],
      one past the class's own last index, as uniform_int_distribution(prev_size,
      prev_size + size) is written. */
  predicate InClassRange(x: nat, sizes: seq<nat>, c: nat)
    requires c < |sizes|
  {
    Sum(sizes[..c]) <= x <= Sum(sizes[..c]) + sizes[c]
  }

  /** `batch` is |sizes| consecutive chunks of q indices, chunk c drawn from
      class c's range. */
  ghost predicate Chunks(batch: seq<nat>, sizes: seq<nat>, q: nat)
    decreases |sizes|
  {
    if sizes == [] then batch == []
    else
      && |batch| >= q
      && Chunks(batch[..|batch| - q], sizes[..|sizes| - 1], q)
      && forall j :: |batch| - q <= j < |batch| ==> InClassRange(batch[j], sizes, |sizes| - 1)
  }

  /** What a successful stratified draw promises: B distinct indices, class
      by class in order, then B % k remainder indices from [0, sum]. */
  ghost predicate StratifiedBatch(batchSize: nat, sizes: seq<nat>, batch: seq<nat>)
    requires |sizes| >= 1
  {
    var split := batchSize - batchSize % |sizes|;
    && |batch| == batchSize
    && Distinct(batch)
    && Chunks(batch[..split], sizes, Quota(batchSize, |sizes|))
    && forall j :: split <= j < batchSize ==> batch[j] <= Sum(sizes)
  }

  /** Populations no stream can satisfy: a class range holding fewer values
      than the quota, or fewer values in [0, sum] than the batch size. */
  ghost predicate Unsatisfiable(batchSize: nat, sizes: seq<nat>)
    requires |sizes| >= 1
  {
    || (exists c :: 0 <= c < |sizes| && sizes[c] + 1 < Quota(batchSize, |sizes|))
    || Sum(sizes) + 1 < batchSize
  }

  /** Where a scan of the stream stopped: the values taken, the position
      after the last value read, and whether the quota was met. */
  datatype Scan = Scan(picked: seq<nat>, next: nat, ok: bool)

  /** The reject loop as a definition: read the stream from `pos`, take each
      value of [lo, hi] not yet in `used`, until `need` more are taken or the
      stream ends; `acc` holds what is taken so far. */
  function Scanned(lo: nat, hi: nat, need: nat, draws: seq<nat>, pos: nat, used: set<nat>, acc: seq<nat>): (r: Scan)
    requires lo <= hi && pos <= |draws|
    ensures pos <= r.next <= |draws|
    decreases need, |draws| - pos
  {
    if need == 0 then Scan(acc, pos, true)
    else if pos == |draws| then Scan(acc, pos, false)
    else
      var v := Pick(lo, hi, draws[pos]);
      if v in used then Scanned(lo, hi, need, draws, pos + 1, used, acc)
      else Scanned(lo, hi, need - 1, draws, pos + 1, used + {v}, acc + [v])
  }

  /** The class loop as a definition: classes c, c + 1, ... each scan for q
      new values of their range, sharing one set of taken values; the first
      class whose scan fails ends the whole, keeping what it took. */
  function ClassScan(q: nat, sizes: seq<nat>, draws: seq<nat>, c: nat, pos: nat, acc: seq<nat>): (r: Scan)
    requires c <= |sizes| && pos <= |draws|
    ensures pos <= r.next <= |draws|
    decreases |sizes| - c
  {
    if c == |sizes| then Scan(acc, pos, true)
    else
      var lo := Sum(sizes[..c]);
      var s := Scanned(lo, lo + sizes[c], q, draws, pos, ToSet(acc), []);
      if !s.ok then Scan(acc + s.picked, s.next, false)
      else ClassScan(q, sizes, draws, c + 1, s.next, acc + s.picked)
  }

  /** The stratified draw as a definition: the class scans, then the
      remainder scan over [0, sum] with everything taken so far excluded. */
  function Stratified(batchSize: nat, sizes: seq<nat>, draws: seq<nat>): Scan
    requires |sizes| >= 1
  {
    var k := |sizes|;
    var classes := ClassScan(Quota(batchSize, k), sizes, draws, 0, 0, []);
    if !classes.ok then classes
    else
      var rest := Scanned(0, Sum(sizes), batchSize % k, draws, classes.next, ToSet(classes.picked), []);
      Scan(classes.picked + rest.picked, rest.next, rest.ok)
  }

  /** The values of [lo, hi] the stream offers at positions from .. to - 1. */
  ghost function Seen(lo: nat, hi: nat, draws: seq<nat>, from: nat, to: nat): set<nat>
    requires lo <= hi && from <= to <= |draws|
  {
    set k | from <= k < to :: Pick(lo, hi, draws[k])
  }

  /* ---------------------------------------------------------------- lemmas */

  lemma {:induction false} DistinctCard(s: seq<nat>)
    requires Distinct(s)
    ensures |ToSet(s)| == |s|
  {
    if s != [] {
      var init := s[..|s| - 1];
      DistinctCard(init);
      assert ToSet(s) == ToSet(init) + {s[|s| - 1]};
      assert s[|s| - 1] !in ToSet(init);
    }
  }

  lemma {:induction false} SubsetCard(a: set<nat>, b: set<nat>)
    requires a <= b
    ensures |a| <= |b|
  {
    if a != {} {
      var x :| x in a;
      SubsetCard(a - {x}, b - {x});
    }
  }

  lemma {:induction false} FreeAllCard(lo: nat, hi: int)
    requires lo <= hi + 1
    ensures |Free(lo, hi, {})| == hi + 1 - lo
    decreases hi + 1 - lo
  {
    if lo <= hi {
      FreeAllCard(lo + 1, hi);
      assert Free(lo, hi, {}) == Free(lo + 1, hi, {}) + {lo};
    } else {
      assert Free(lo, hi, {}) == {};
    }
  }

  /** At most hi - lo + 1 distinct values fit in [lo, hi]. */
  lemma FreeCard(lo: nat, hi: nat, used: set<nat>)
    requires lo <= hi
    ensures |Free(lo, hi, used)| <= hi - lo + 1
  {
    FreeAllCard(lo, hi);
    SubsetCard(Free(lo, hi, used), Free(lo, hi, {}));
  }

  /** A distinct sequence of values in [0, hi] is at most hi + 1 long. */
  lemma DistinctBounded(s: seq<nat>, hi: nat)
    requires Distinct(s)
    requires forall j :: 0 <= j < |s| ==> s[j] <= hi
    ensures |s| <= hi + 1
  {
    DistinctCard(s);
    FreeAllCard(0, hi);
    SubsetCard(ToSet(s), Free(0, hi, {}));
  }

  lemma SumPrefix(s: seq<nat>, c: nat)
    requires c < |s|
    ensures Sum(s[..c + 1]) == Sum(s[..c]) + s[c]
  {
    assert s[..c + 1][..c] == s[..c];
  }

  lemma {:induction false} SumPrefixBound(s: seq<nat>, c: nat)
    requires c <= |s|
    ensures Sum(s[..c]) <= Sum(s)
    decreases |s| - c
  {
    if c < |s| {
      SumPrefix(s, c);
      SumPrefixBound(s, c + 1);
    } else {
      assert s[..c] == s;
    }
  }

  /** Class c's range depends only on the sizes up to c. */
  lemma InClassRangePrefix(x: nat, sizes: seq<nat>, n: nat, c: nat)
    requires c < n <= |sizes|
    ensures InClassRange(x, sizes[..n], c) == InClassRange(x, sizes, c)
  {
    assert sizes[..n][..c] == sizes[..c];
  }

  /** Appending class c's chunk to the chunks of classes 0..c-1. */
  lemma ChunksExtend(batch: seq<nat>, picked: seq<nat>, sizes: seq<nat>, c: nat, q: nat)
    requires c < |sizes|
    requires Chunks(batch, sizes[..c], q)
    requires |picked| == q
    requires forall j :: 0 <= j < q ==> InClassRange(picked[j], sizes, c)
    ensures Chunks(batch + picked, sizes[..c + 1], q)
  {
    var b := batch + picked;
    assert b[..|b| - q] == batch;
    assert sizes[..c + 1][..c] == sizes[..c];
    forall j | |b| - q <= j < |b| ensures InClassRange(b[j], sizes[..c + 1], c) {
      InClassRangePrefix(b[j], sizes, c + 1, c);
    }
  }

  /** Every index of a chunked batch lies in [0, sum of sizes]. */
  lemma {:induction false} ChunksBounded(batch: seq<nat>, sizes: seq<nat>, q: nat)
    requires Chunks(batch, sizes, q)
    ensures forall j :: 0 <= j < |batch| ==> batch[j] <= Sum(sizes)
    decreases |sizes|
  {
    if sizes != [] {
      var init := sizes[..|sizes| - 1];
      var pre := batch[..|batch| - q];
      ChunksBounded(pre, init, q);
      SumPrefixBound(sizes, |sizes| - 1);
      forall j | 0 <= j < |batch| ensures batch[j] <= Sum(sizes) {
        if j < |batch| - q {
          assert batch[j] == pre[j];
        }
      }
    }
  }

  lemma MulMono(a: nat, b: nat, q: nat)
    requires a <= b
    ensures a * q <= b * q
  {
    assert b * q == a * q + (b - a) * q;
  }

  lemma MulSign(a: int, k: nat)
    requires k >= 1
    ensures a > 0 ==> a * k >= k
    ensures a < 0 ==> a * k <= -(k as int)
  {
  }

  lemma MulDivCancel(d: nat, k: nat)
    requires k >= 1
    ensures (d * k) / k == d
  {
    var x := d * k;
    var q, r := x / k, x % k;
    assert x == q * k + r && 0 <= r < k;
    assert (q - d) * k == -r;
    MulSign(q - d, k);
  }

  /** k quotas plus the remainder make up the batch exactly. */
  lemma QuotaExact(batchSize: nat, k: nat)
    requires k >= 1
    ensures Quota(batchSize, k) * k == batchSize - batchSize % k
  {
    assert batchSize == (batchSize / k) * k + batchSize % k;
    MulDivCancel(batchSize / k, k);
  }

  /** The chunks laid out by position: |sizes| * q indices, and positions
      c * q up to c * q + q - 1 hold the draws of class c. */
  lemma {:induction false} ChunkLayout(batch: seq<nat>, sizes: seq<nat>, q: nat)
    requires Chunks(batch, sizes, q)
    ensures |batch| == |sizes| * q
    ensures forall c, p :: 0 <= c < |sizes| && c * q <= p < c * q + q && p < |batch| ==>
              InClassRange(batch[p], sizes, c)
    decreases |sizes|
  {
    if sizes != [] {
      var k := |sizes|;
      var init := sizes[..k - 1];
      var pre := batch[..|batch| - q];
      ChunkLayout(pre, init, q);
      assert |batch| == (k - 1) * q + q == k * q;
      forall c, p | 0 <= c < k && c * q <= p < c * q + q && p < |batch|
        ensures InClassRange(batch[p], sizes, c)
      {
        if c < k - 1 {
          MulMono(c + 1, k - 1, q);
          assert p < (c + 1) * q <= |pre|;
          assert batch[p] == pre[p];
          InClassRangePrefix(batch[p], sizes, k - 1, c);
        } else {
          assert c * q == |batch| - q;
        }
      }
    }
  }

  /** The source's ranges overlap: the first index of class c + 1 is also a
      legal draw for class c, so a chunk may hold indices of the next class. */
  lemma RangesOverlap(sizes: seq<nat>, c: nat)
    requires c + 1 < |sizes|
    ensures InClassRange(Sum(sizes[..c + 1]), sizes, c)
    ensures InClassRange(Sum(sizes[..c + 1]), sizes, c + 1)
  {
    SumPrefix(sizes, c);
  }

  /** A permutation of 0..n-1 holds distinct indices below n. */
  lemma PermutationBounds(s: seq<nat>, n: nat)
    requires multiset(s) == multiset(Iota(n))
    ensures forall j :: 0 <= j < |s| ==> s[j] < n
    ensures Distinct(s)
  {
    forall j | 0 <= j < |s| ensures s[j] < n {
      assert s[j] in multiset(s);
      assert s[j] in Iota(n);
    }
    forall i, j | 0 <= i < j < |s| ensures s[i] != s[j] {
      if s[i] == s[j] {
        var x := s[i];
        assert s == s[..i] + [x] + s[i + 1..j] + [x] + s[j + 1..];
        assert multiset(s)[x] >= 2;
        IotaOnce(n, x);
      }
    }
  }

  lemma {:induction false} IotaOnce(n: nat, x: nat)
    ensures multiset(Iota(n))[x] <= 1
  {
    if n > 0 {
      assert Iota(n) == Iota(n - 1) + [n - 1];
      IotaOnce(n - 1, x);
      if x == n - 1 {
        assert x !in Iota(n - 1);
      }
    }
  }

  lemma SeenStep(lo: nat, hi: nat, draws: seq<nat>, from: nat, to: nat)
    requires lo <= hi && from <= to < |draws|
    ensures Seen(lo, hi, draws, from, to + 1) == Seen(lo, hi, draws, from, to) + {Pick(lo, hi, draws[to])}
  {
  }

  lemma ToSetSnoc(s: seq<nat>, x: nat)
    ensures ToSet(s + [x]) == ToSet(s) + {x}
  {
  }

  /** A scan only adds to what it has taken. */
  lemma {:induction false} ScannedGrows(lo: nat, hi: nat, need: nat, draws: seq<nat>, pos: nat, used: set<nat>, acc: seq<nat>)
    requires lo <= hi && pos <= |draws|
    ensures ToSet(acc) <= ToSet(Scanned(lo, hi, need, draws, pos, used, acc).picked)
    decreases need, |draws| - pos
  {
    if need > 0 && pos < |draws| {
      var v := Pick(lo, hi, draws[pos]);
      if v in used {
        ScannedGrows(lo, hi, need, draws, pos + 1, used, acc);
      } else {
        ToSetSnoc(acc, v);
        ScannedGrows(lo, hi, need - 1, draws, pos + 1, used + {v}, acc + [v]);
      }
    }
  }

  /** The values taken stay distinct, in the range and outside `base`. */
  lemma {:induction false} ScannedDistinct(lo: nat, hi: nat, need: nat, draws: seq<nat>, pos: nat, base: set<nat>, acc: seq<nat>)
    requires lo <= hi && pos <= |draws|
    requires Distinct(acc)
    requires forall j :: 0 <= j < |acc| ==> lo <= acc[j] <= hi && acc[j] !in base
    ensures var r := Scanned(lo, hi, need, draws, pos, base + ToSet(acc), acc);
            && Distinct(r.picked)
            && forall j :: 0 <= j < |r.picked| ==> lo <= r.picked[j] <= hi && r.picked[j] !in base
    decreases need, |draws| - pos
  {
    if need > 0 && pos < |draws| {
      var v := Pick(lo, hi, draws[pos]);
      if v in base + ToSet(acc) {
        ScannedDistinct(lo, hi, need, draws, pos + 1, base, acc);
      } else {
        ToSetSnoc(acc, v);
        assert base + ToSet(acc) + {v} == base + ToSet(acc + [v]);
        ScannedDistinct(lo, hi, need - 1, draws, pos + 1, base, acc + [v]);
      }
    }
  }

  /** A scan meets its quota, or it has read the whole stream and is short. */
  lemma {:induction false} ScannedCount(lo: nat, hi: nat, need: nat, draws: seq<nat>, pos: nat, used: set<nat>, acc: seq<nat>)
    requires lo <= hi && pos <= |draws|
    ensures var r := Scanned(lo, hi, need, draws, pos, used, acc);
            && (r.ok ==> |r.picked| == |acc| + need)
            && (!r.ok ==> r.next == |draws| && |r.picked| < |acc| + need)
    decreases need, |draws| - pos
  {
    if need > 0 && pos < |draws| {
      var v := Pick(lo, hi, draws[pos]);
      if v in used {
        ScannedCount(lo, hi, need, draws, pos + 1, used, acc);
      } else {
        ScannedCount(lo, hi, need - 1, draws, pos + 1, used + {v}, acc + [v]);
      }
    }
  }

  /** Every value a scan read is used or taken: none is passed over while new. */
  lemma {:induction false} ScannedRead(lo: nat, hi: nat, need: nat, draws: seq<nat>, pos: nat, used: set<nat>, acc: seq<nat>)
    requires lo <= hi && pos <= |draws|
    ensures var r := Scanned(lo, hi, need, draws, pos, used, acc);
            forall k :: pos <= k < r.next ==> Pick(lo, hi, draws[k]) in used + ToSet(r.picked)
    decreases need, |draws| - pos
  {
    if need > 0 && pos < |draws| {
      var v := Pick(lo, hi, draws[pos]);
      if v in used {
        ScannedRead(lo, hi, need, draws, pos + 1, used, acc);
      } else {
        ToSetSnoc(acc, v);
        ScannedRead(lo, hi, need - 1, draws, pos + 1, used + {v}, acc + [v]);
        ScannedGrows(lo, hi, need - 1, draws, pos + 1, used + {v}, acc + [v]);
      }
    }
  }

  /** Everything a scan takes was offered by the part of the stream it read. */
  lemma {:induction false} ScannedOffered(lo: nat, hi: nat, need: nat, draws: seq<nat>, pos: nat, used: set<nat>, acc: seq<nat>)
    requires lo <= hi && pos <= |draws|
    ensures var r := Scanned(lo, hi, need, draws, pos, used, acc);
            ToSet(r.picked) <= ToSet(acc) + Seen(lo, hi, draws, pos, r.next)
    decreases need, |draws| - pos
  {
    if need > 0 && pos < |draws| {
      var v := Pick(lo, hi, draws[pos]);
      var r := Scanned(lo, hi, need, draws, pos, used, acc);
      if v in used {
        ScannedOffered(lo, hi, need, draws, pos + 1, used, acc);
        assert Seen(lo, hi, draws, pos + 1, r.next) <= Seen(lo, hi, draws, pos, r.next);
      } else {
        ToSetSnoc(acc, v);
        ScannedOffered(lo, hi, need - 1, draws, pos + 1, used + {v}, acc + [v]);
        assert Seen(lo, hi, draws, pos + 1, r.next) <= Seen(lo, hi, draws, pos, r.next);
        assert v in Seen(lo, hi, draws, pos, r.next);
      }
    }
  }

  /** A range with fewer than `quota` free values makes the scan fail. */
  lemma ScanTooFew(lo: nat, hi: nat, quota: nat, draws: seq<nat>, pos: nat, used: set<nat>)
    requires lo <= hi && pos <= |draws| && |Free(lo, hi, used)| < quota
    ensures !Scanned(lo, hi, quota, draws, pos, used, []).ok
  {
    assert ToSet([]) == {} && used + ToSet([]) == used;
    ScannedDistinct(lo, hi, quota, draws, pos, used, []);
    ScannedCount(lo, hi, quota, draws, pos, used, []);
    var r := Scanned(lo, hi, quota, draws, pos, used, []);
    if r.ok {
      DistinctCard(r.picked);
      SubsetCard(ToSet(r.picked), Free(lo, hi, used));
    }
  }

  /** The reject loop's promises, for a scan that starts with nothing taken:
      `quota` distinct new values of [lo, hi] on success; a value is passed
      over only when it is already used or taken; failure comes exactly when
      the rest of the stream offers fewer than `quota` new values, which is
      always so when the range has fewer than `quota` free values. */
  lemma ScanOutcome(lo: nat, hi: nat, quota: nat, draws: seq<nat>, pos: nat, used: set<nat>)
    requires lo <= hi && pos <= |draws|
    ensures var r := Scanned(lo, hi, quota, draws, pos, used, []);
            && pos <= r.next <= |draws|
            && Distinct(r.picked)
            && (forall j :: 0 <= j < |r.picked| ==> lo <= r.picked[j] <= hi && r.picked[j] !in used)
            && (r.ok ==> |r.picked| == quota)
            && (!r.ok ==> r.next == |draws| && |r.picked| < quota)
            && (forall k :: pos <= k < r.next ==> Pick(lo, hi, draws[k]) in used + ToSet(r.picked))
            && ToSet(r.picked) <= Seen(lo, hi, draws, pos, r.next)
            && (r.ok <==> quota <= |Seen(lo, hi, draws, pos, |draws|) - used|)
            && (|Free(lo, hi, used)| < quota ==> !r.ok)
  {
    assert ToSet([]) == {} && used + ToSet([]) == used;
    ScannedDistinct(lo, hi, quota, draws, pos, used, []);
    ScannedCount(lo, hi, quota, draws, pos, used, []);
    ScannedRead(lo, hi, quota, draws, pos, used, []);
    ScannedOffered(lo, hi, quota, draws, pos, used, []);
    var r := Scanned(lo, hi, quota, draws, pos, used, []);
    var offered := Seen(lo, hi, draws, pos, |draws|) - used;
    DistinctCard(r.picked);
    if r.ok {
      assert Seen(lo, hi, draws, pos, r.next) <= Seen(lo, hi, draws, pos, |draws|);
      SubsetCard(ToSet(r.picked), offered);
      SubsetCard(ToSet(r.picked), Free(lo, hi, used));
    } else {
      SubsetCard(offered, ToSet(r.picked));
    }
  }

  /* ---------------------------------------------------------------- the draws */

  /** One `while(true)` loop of the source: read the stream from `pos` until
      a value of [lo, hi] not in `used` turns up, or the stream ends. */
  method DrawNew(lo: nat, hi: nat, draws: seq<nat>, pos: nat, used: set<nat>, ghost need: nat, ghost acc: seq<nat>)
    returns (index: nat, next: nat, found: bool)
    requires lo <= hi && pos <= |draws| && need > 0
    ensures pos <= next <= |draws|
    ensures found ==> pos < next && index == Pick(lo, hi, draws[next - 1]) && index !in used
    ensures !found ==> next == |draws|
    ensures forall k :: pos <= k < next && (k < next - 1 || !found) ==> Pick(lo, hi, draws[k]) in used
    ensures Scanned(lo, hi, need, draws, pos, used, acc) ==
              if found then Scanned(lo, hi, need - 1, draws, next, used + {index}, acc + [index])
              else Scan(acc, next, false)
  {
    next, found, index := pos, false, 0;
    while next < |draws|
      invariant pos <= next <= |draws|
      invariant forall k :: pos <= k < next ==> Pick(lo, hi, draws[k]) in used
      invariant Scanned(lo, hi, need, draws, pos, used, acc) == Scanned(lo, hi, need, draws, next, used, acc)
    {
      index := Pick(lo, hi, draws[next]);
      next := next + 1;
      if index !in used {
        found := true;
        return;
      }
    }
  }

  /** One `for ... while(true)` block of the source: draw `quota` indices from
      [lo, hi], rejecting any already in `used` (the `already_add` set). The
      result is the reference scan, whose properties ScanOutcome states. */
  method DrawDistinct(lo: nat, hi: nat, quota: nat, draws: seq<nat>, pos: nat, used: set<nat>)
    returns (picked: seq<nat>, next: nat, usedAfter: set<nat>, ok: bool)
    requires lo <= hi && pos <= |draws|
    ensures usedAfter == used + ToSet(picked)
    ensures Scan(picked, next, ok) == Scanned(lo, hi, quota, draws, pos, used, [])
  {
    picked, next, usedAfter, ok := [], pos, used, true;
    assert ToSet(picked) == {};
    while |picked| < quota
      invariant |picked| <= quota && pos <= next <= |draws|
      invariant usedAfter == used + ToSet(picked)
      invariant Scanned(lo, hi, quota - |picked|, draws, next, usedAfter, picked) == Scanned(lo, hi, quota, draws, pos, used, [])
      decreases quota - |picked|
    {
      var index, after, found := DrawNew(lo, hi, draws, next, usedAfter, quota - |picked|, picked);
      if !found {
        next, ok := after, false;
        return;
      }
      ToSetSnoc(picked, index);
      next, usedAfter, picked := after, usedAfter + {index}, picked + [index];
    }
  }

  /** The class loop (lines 37-52 and 101-113): quota draws from each
      class's range in class order, sharing one `already_add` set. The
      result is the reference ClassScan, whose properties ClassScanFacts
      states. */
  method DrawClasses(q: nat, sizes: seq<nat>, draws: seq<nat>)
    returns (batch: seq<nat>, used: set<nat>, pos: nat, ok: bool)
    ensures used == ToSet(batch)
    ensures Scan(batch, pos, ok) == ClassScan(q, sizes, draws, 0, 0, [])
  {
    var k := |sizes|;
    batch, used, pos, ok := [], {}, 0, true;
    assert ToSet(batch) == {};
    var prev: nat := 0;
    var c := 0;
    while c < k
      invariant 0 <= c <= k && pos <= |draws|
      invariant prev == Sum(sizes[..c])
      invariant used == ToSet(batch)
      invariant ClassScan(q, sizes, draws, c, pos, batch) == ClassScan(q, sizes, draws, 0, 0, [])
    {
      var picked, next, usedAfter, drawn := DrawDistinct(prev, prev + sizes[c], q, draws, pos, used);
      assert ToSet(batch + picked) == ToSet(batch) + ToSet(picked);
      batch, used, pos := batch + picked, usedAfter, next;
      if !drawn {
        ok := false;
        return;
      }
      SumPrefix(sizes, c);
      prev := prev + sizes[c];
      c := c + 1;
    }
  }

  /** The class loop's batch stays distinct. */
  lemma {:induction false} ClassScanDistinct(q: nat, sizes: seq<nat>, draws: seq<nat>, c: nat, pos: nat, acc: seq<nat>)
    requires c <= |sizes| && pos <= |draws| && Distinct(acc)
    ensures Distinct(ClassScan(q, sizes, draws, c, pos, acc).picked)
    decreases |sizes| - c
  {
    if c < |sizes| {
      var lo := Sum(sizes[..c]);
      assert ToSet(acc) + ToSet([]) == ToSet(acc);
      ScannedDistinct(lo, lo + sizes[c], q, draws, pos, ToSet(acc), []);
      var s := Scanned(lo, lo + sizes[c], q, draws, pos, ToSet(acc), []);
      assert Distinct(acc + s.picked);
      if s.ok {
        ClassScanDistinct(q, sizes, draws, c + 1, s.next, acc + s.picked);
      }
    }
  }

  /** One class's scan extends the chunks by a chunk of that class. */
  lemma ClassStepChunks(q: nat, sizes: seq<nat>, draws: seq<nat>, c: nat, pos: nat, acc: seq<nat>)
    requires c < |sizes| && pos <= |draws| && Chunks(acc, sizes[..c], q)
    ensures var lo := Sum(sizes[..c]);
            var s := Scanned(lo, lo + sizes[c], q, draws, pos, ToSet(acc), []);
            s.ok ==> |s.picked| == q && Chunks(acc + s.picked, sizes[..c + 1], q)
  {
    var lo := Sum(sizes[..c]);
    assert ToSet(acc) + ToSet([]) == ToSet(acc);
    ScannedDistinct(lo, lo + sizes[c], q, draws, pos, ToSet(acc), []);
    ScannedCount(lo, lo + sizes[c], q, draws, pos, ToSet(acc), []);
    var s := Scanned(lo, lo + sizes[c], q, draws, pos, ToSet(acc), []);
    if s.ok {
      ChunksExtend(acc, s.picked, sizes, c, q);
    }
  }

  /** A successful class loop gives one chunk of q indices per class, each
      drawn from its class's range. */
  lemma {:induction false} ClassScanChunks(q: nat, sizes: seq<nat>, draws: seq<nat>, c: nat, pos: nat, acc: seq<nat>)
    requires c <= |sizes| && pos <= |draws|
    requires Chunks(acc, sizes[..c], q) && |acc| == c * q
    ensures var r := ClassScan(q, sizes, draws, c, pos, acc);
            r.ok ==> Chunks(r.picked, sizes, q) && |r.picked| == |sizes| * q
    decreases |sizes| - c
  {
    if c == |sizes| {
      assert sizes[..c] == sizes;
    } else {
      var lo := Sum(sizes[..c]);
      ClassStepChunks(q, sizes, draws, c, pos, acc);
      var s := Scanned(lo, lo + sizes[c], q, draws, pos, ToSet(acc), []);
      if s.ok {
        assert |acc + s.picked| == c * q + q == (c + 1) * q;
        ClassScanChunks(q, sizes, draws, c + 1, s.next, acc + s.picked);
      }
    }
  }

  /** A class whose closed range holds fewer than q values makes the class
      loop fail. */
  lemma {:induction false} ClassScanSmall(q: nat, sizes: seq<nat>, draws: seq<nat>, c: nat, pos: nat, acc: seq<nat>, d: nat)
    requires c <= d < |sizes| && pos <= |draws| && sizes[d] + 1 < q
    ensures !ClassScan(q, sizes, draws, c, pos, acc).ok
    decreases |sizes| - c
  {
    var lo := Sum(sizes[..c]);
    var s := Scanned(lo, lo + sizes[c], q, draws, pos, ToSet(acc), []);
    if c == d {
      FreeCard(lo, lo + sizes[c], ToSet(acc));
      ScanTooFew(lo, lo + sizes[c], q, draws, pos, ToSet(acc));
    } else if s.ok {
      ClassScanSmall(q, sizes, draws, c + 1, s.next, acc + s.picked, d);
    }
  }

  /** The class loop fails only once the stream is used up. */
  lemma {:induction false} ClassScanExhausted(q: nat, sizes: seq<nat>, draws: seq<nat>, c: nat, pos: nat, acc: seq<nat>)
    requires c <= |sizes| && pos <= |draws|
    ensures var r := ClassScan(q, sizes, draws, c, pos, acc);
            !r.ok ==> r.next == |draws|
    decreases |sizes| - c
  {
    if c < |sizes| {
      var lo := Sum(sizes[..c]);
      ScannedCount(lo, lo + sizes[c], q, draws, pos, ToSet(acc), []);
      var s := Scanned(lo, lo + sizes[c], q, draws, pos, ToSet(acc), []);
      if s.ok {
        ClassScanExhausted(q, sizes, draws, c + 1, s.next, acc + s.picked);
      }
    }
  }

  /** A successful stratified draw is a StratifiedBatch. */
  lemma StratifiedSound(batchSize: nat, sizes: seq<nat>, draws: seq<nat>)
    requires |sizes| >= 1
    ensures var s := Stratified(batchSize, sizes, draws);
            s.ok ==> StratifiedBatch(batchSize, sizes, s.picked)
  {
    var k := |sizes|;
    var rest := batchSize % k;
    var q := Quota(batchSize, k);
    QuotaExact(batchSize, k);
    assert sizes[..0] == [];
    ClassScanDistinct(q, sizes, draws, 0, 0, []);
    ClassScanChunks(q, sizes, draws, 0, 0, []);
    var classes := ClassScan(q, sizes, draws, 0, 0, []);
    if classes.ok {
      var batch := classes.picked;
      ScanOutcome(0, Sum(sizes), rest, draws, classes.next, ToSet(batch));
      var extra := Scanned(0, Sum(sizes), rest, draws, classes.next, ToSet(batch), []);
      var result := batch + extra.picked;
      if extra.ok {
        assert result[..batchSize - rest] == batch;
        ChunksBounded(batch, sizes, q);
        assert Distinct(result);
      }
    }
  }

  /** A stratified draw fails only once the stream is used up. */
  lemma StratifiedExhausted(batchSize: nat, sizes: seq<nat>, draws: seq<nat>)
    requires |sizes| >= 1
    ensures var s := Stratified(batchSize, sizes, draws);
            !s.ok ==> s.next == |draws|
  {
    var q := Quota(batchSize, |sizes|);
    ClassScanExhausted(q, sizes, draws, 0, 0, []);
    var classes := ClassScan(q, sizes, draws, 0, 0, []);
    if classes.ok {
      ScannedCount(0, Sum(sizes), batchSize % |sizes|, draws, classes.next, ToSet(classes.picked), []);
    }
  }

  /** An unsatisfiable population makes every stratified draw fail. */
  lemma StratifiedUnsatisfiable(batchSize: nat, sizes: seq<nat>, draws: seq<nat>)
    requires |sizes| >= 1 && Unsatisfiable(batchSize, sizes)
    ensures !Stratified(batchSize, sizes, draws).ok
  {
    var k := |sizes|;
    var rest := batchSize % k;
    var q := Quota(batchSize, k);
    if d :| 0 <= d < k && sizes[d] + 1 < q {
      ClassScanSmall(q, sizes, draws, 0, 0, [], d);
      return;
    }
    var classes := ClassScan(q, sizes, draws, 0, 0, []);
    if classes.ok {
      QuotaExact(batchSize, k);
      assert sizes[..0] == [];
      ClassScanDistinct(q, sizes, draws, 0, 0, []);
      ClassScanChunks(q, sizes, draws, 0, 0, []);
      var batch := classes.picked;
      var used := ToSet(batch);
      assert used + ToSet([]) == used;
      ScannedDistinct(0, Sum(sizes), rest, draws, classes.next, used, []);
      ScannedCount(0, Sum(sizes), rest, draws, classes.next, used, []);
      var extra := Scanned(0, Sum(sizes), rest, draws, classes.next, used, []);
      if extra.ok {
        var result := batch + extra.picked;
        ChunksBounded(batch, sizes, q);
        assert Distinct(result);
        DistinctBounded(result, Sum(sizes));
      }
    }
  }

  /** Lines 31-63 and 93-124: quota draws per class in class order, then the
      remainder draws over the whole range [0, sum]. The result and the
      stream position reached are those of the reference draw Stratified. */
  method StratifiedSample(batchSize: nat, sizes: seq<nat>, draws: seq<nat>)
    returns (r: Result<seq<nat>, SampleError>, consumed: nat)
    requires |sizes| >= 1
    ensures var s := Stratified(batchSize, sizes, draws);
            && consumed == s.next
            && (r.Success? <==> s.ok)
            && (r.Success? ==> r.value == s.picked)
    ensures r.Success? ==> StratifiedBatch(batchSize, sizes, r.value)
    ensures Unsatisfiable(batchSize, sizes) ==> r.Failure?
    ensures r.Failure? ==> consumed == |draws|
  {
    var k := |sizes|;
    var rest := batchSize % k;
    var q := (batchSize - rest) / k;
    StratifiedSound(batchSize, sizes, draws);
    StratifiedExhausted(batchSize, sizes, draws);
    if Unsatisfiable(batchSize, sizes) {
      StratifiedUnsatisfiable(batchSize, sizes, draws);
    }
    var batch, used, pos, ok := DrawClasses(q, sizes, draws);
    if !ok {
      return Failure(RetriesExhausted), pos;
    }
    var extra, next, usedAfter, drawn := DrawDistinct(0, Sum(sizes), rest, draws, pos, used);
    consumed := next;
    if !drawn {
      return Failure(RetriesExhausted), consumed;
    }
    r := Success(batch + extra);
  }

  /** std::shuffle over a[0 .. n): Fisher-Yates from the top, each swap
      partner chosen by the stream. */
  method ShufflePrefix(a: array<nat>, n: nat, draws: seq<nat>)
    requires n <= a.Length
    modifies a
    ensures multiset(a[..]) == multiset(old(a[..]))
    ensures forall k :: n <= k < a.Length ==> a[k] == old(a[k])
  {
    var m := n;
    var step := 0;
    while m > 1
      invariant 0 <= m <= n
      invariant multiset(a[..]) == multiset(old(a[..]))
      invariant forall k :: n <= k < a.Length ==> a[k] == old(a[k])
    {
      var j := Pick(0, m - 1, Draw(draws, step));
      a[m - 1], a[j] := a[j], a[m - 1];
      m, step := m - 1, step + 1;
    }
  }

  /** Lines 83-90: push 0..total-1, then shuffle [&ptr[0], &ptr[size-1]),
      a range that leaves out the last element. */
  method ShuffledRange(total: nat, draws: seq<nat>) returns (batch: seq<nat>)
    requires total >= 1
    ensures |batch| == total
    ensures multiset(batch) == multiset(Iota(total))
    ensures batch[total - 1] == total - 1
  {
    var a := new nat[total];
    var i := 0;
    while i < total
      invariant 0 <= i <= total
      invariant forall k :: 0 <= k < i ==> a[k] == k
    {
      a[i] := i;
      i := i + 1;
    }
    assert a[..] == Iota(total);
    ShufflePrefix(a, total - 1, draws);
    batch := a[..];
  }

  /** GetRandomSampleClassIndex (the overload taking the vector of class
      sizes): the small-population shortcut, otherwise the stratified draw.
      The output vector is cleared on entry, so the result depends only on
      the arguments. `consumed` counts the stream values the stratified
      draw read; the shortcut's shuffle does not report its use and gives 0. */
  method GetRandomSampleClassIndex(batchSize: nat, sizes: seq<nat>, total: nat, draws: seq<nat>)
    returns (r: Result<seq<nat>, SampleError>, consumed: nat)
    requires total <= SmallPopulation ==> total >= 1
    requires total > SmallPopulation ==> |sizes| >= 1
    ensures total <= SmallPopulation ==>
              && r.Success?
              && |r.value| == total
              && multiset(r.value) == multiset(Iota(total))
              && r.value[total - 1] == total - 1
    ensures total > SmallPopulation ==>
              && (r.Success? ==> StratifiedBatch(batchSize, sizes, r.value))
              && (Unsatisfiable(batchSize, sizes) ==> r.Failure?)
              && consumed == Stratified(batchSize, sizes, draws).next
              && (r.Success? <==> Stratified(batchSize, sizes, draws).ok)
              && (r.Success? ==> r.value == Stratified(batchSize, sizes, draws).picked)
              && (r.Failure? ==> consumed == |draws|)
  {
    if total <= SmallPopulation {
      var batch := ShuffledRange(total, draws);
      return Success(batch), 0;
    }
    r, consumed := StratifiedSample(batchSize, sizes, draws);
  }
}
