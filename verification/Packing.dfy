// Greedy packing of documents into output segments (compact.rs:58-67), and how
// many segments it can produce.
module Packing {
  import opened Common

  // An empty file still costs one byte when packing (compact.rs:58).
  function Cost(size: nat): nat { Max(size, 1) }

  // Where each output segment starts, and the cost of the last one so far.
  datatype Packed = Packed(starts: seq<nat>, bytes: nat)

  // One document at a time, in order.
  function PackNext(p: Packed, at: nat, size: nat, batch: nat): Packed {
    if |p.starts| == 0 || (p.bytes > 0 && p.bytes + Cost(size) > batch) then Packed(p.starts + [at], Cost(size))
    else Packed(p.starts, p.bytes + Cost(size))
  }

  function Pack(sizes: seq<nat>, batch: nat): Packed {
    if |sizes| == 0 then Packed([], 0)
    else PackNext(Pack(sizes[..|sizes| - 1], batch), |sizes| - 1, sizes[|sizes| - 1], batch)
  }

  function TotalCost(sizes: seq<nat>): nat {
    if |sizes| == 0 then 0 else TotalCost(sizes[..|sizes| - 1]) + Cost(sizes[|sizes| - 1])
  }

  function TotalBytes(sizes: seq<nat>): nat {
    if |sizes| == 0 then 0 else TotalBytes(sizes[..|sizes| - 1]) + sizes[|sizes| - 1]
  }

  function Zeros(sizes: seq<nat>): nat {
    if |sizes| == 0 then 0 else Zeros(sizes[..|sizes| - 1]) + if sizes[|sizes| - 1] == 0 then 1 else 0
  }

  // The packer's total exceeds the planner's by the number of empty files.
  lemma {:induction false} CostIsBytesPlusZeros(sizes: seq<nat>)
    ensures TotalCost(sizes) == TotalBytes(sizes) + Zeros(sizes) && TotalCost(sizes) >= |sizes|
  {
    if |sizes| != 0 {
      CostIsBytesPlusZeros(sizes[..|sizes| - 1]);
    }
  }

  // ---------------------------------------------------------------- shape

  function EndOf(starts: seq<nat>, t: nat, n: nat): nat
    requires t < |starts|
  {
    if t + 1 < |starts| then starts[t + 1] else n
  }

  // The cuts divide 0..n into non-empty runs, leaving nothing out.
  ghost predicate Tiles(starts: seq<nat>, n: nat) {
    && (n > 0 <==> |starts| > 0)
    && (|starts| > 0 ==> starts[0] == 0)
    && (forall t :: 0 <= t < |starts| ==> starts[t] < EndOf(starts, t, n) <= n)
  }

  lemma {:induction false} PackTiles(sizes: seq<nat>, batch: nat)
    ensures Tiles(Pack(sizes, batch).starts, |sizes|)
    ensures |sizes| > 0 ==> Pack(sizes, batch).bytes > 0
  {
    if |sizes| != 0 {
      var n := |sizes| - 1;
      PackTiles(sizes[..n], batch);
      var starts, more := Pack(sizes[..n], batch).starts, Pack(sizes, batch).starts;
      forall t | 0 <= t < |more| ensures more[t] < EndOf(more, t, n + 1) <= n + 1 {
        if t < |starts| {
          assert more[t] == starts[t] && starts[t] < EndOf(starts, t, n) <= n;
        }
      }
    }
  }

  lemma {:induction false} TilesAscend(starts: seq<nat>, n: nat, t: nat, u: nat)
    requires Tiles(starts, n) && t < u < |starts|
    ensures starts[t] < EndOf(starts, t, n) <= starts[u] < n
    decreases u
  {
    if t + 1 < u {
      TilesAscend(starts, n, t, u - 1);
      assert starts[u - 1] < EndOf(starts, u - 1, n);
    }
    assert starts[u] < EndOf(starts, u, n);
  }

  // The segment that document `k` goes to.
  function SegmentOf(starts: seq<nat>, k: nat): nat {
    if |starts| == 0 then 0
    else if starts[|starts| - 1] <= k then |starts| - 1
    else SegmentOf(starts[..|starts| - 1], k)
  }

  lemma {:induction false} SegmentOfExact(starts: seq<nat>, n: nat, k: nat)
    requires Tiles(starts, n) && k < n
    ensures var t := SegmentOf(starts, k); t < |starts| && starts[t] <= k < EndOf(starts, t, n)
  {
    var last := |starts| - 1;
    if starts[last] > k {
      var init := starts[..last];
      forall t | 0 <= t < last ensures init[t] < EndOf(init, t, starts[last]) == EndOf(starts, t, n) <= starts[last] {
        TilesAscend(starts, n, t, last);
      }
      SegmentOfExact(init, starts[last], k);
    }
  }

  // Only one segment holds `k`.
  lemma SegmentOfUnique(starts: seq<nat>, n: nat, k: nat, t: nat)
    requires Tiles(starts, n) && k < n && t < |starts|
    ensures SegmentOf(starts, k) == t <==> starts[t] <= k < EndOf(starts, t, n)
  {
    SegmentOfExact(starts, n, k);
    var u := SegmentOf(starts, k);
    if u < t {
      TilesAscend(starts, n, u, t);
    } else if t < u {
      TilesAscend(starts, n, t, u);
    }
  }

  // ---------------------------------------------------------------- how many segments

  // Two neighbouring segments cost more than a batch, so k segments need more
  // than k/2 batches. The last segment of an odd number counts in full.
  lemma {:induction false} PackCost(sizes: seq<nat>, batch: nat)
    ensures var p := Pack(sizes, batch);
            TotalCost(sizes) >= |p.starts| / 2 * (batch + 1) + if |p.starts| % 2 == 1 then p.bytes else 0
  {
    if |sizes| != 0 {
      var init := sizes[..|sizes| - 1];
      var before, p := Pack(init, batch), Pack(sizes, batch);
      PackCost(init, batch);
      if |p.starts| > |before.starts| {
        var h := |before.starts| / 2;
        assert (h + 1) * (batch + 1) == h * (batch + 1) + (batch + 1);
        if |before.starts| % 2 == 1 {
          assert |p.starts| / 2 == h + 1;
        } else {
          assert |p.starts| / 2 == h;
        }
      }
    }
  }

  lemma PackingBound(sizes: seq<nat>, batch: nat)
    requires sizes != []
    ensures |Pack(sizes, batch).starts| / 2 * batch < TotalCost(sizes)
  {
    PackCost(sizes, batch);
    PackTiles(sizes, batch);
    HalfTimes(|Pack(sizes, batch).starts| / 2, batch);
  }

  lemma HalfTimes(h: nat, batch: nat)
    ensures h * (batch + 1) == h * batch + h
  {
  }

  // Without empty files, a batch that is at least a `target`-th of the bytes
  // gives fewer than twice the target number of segments.
  lemma AtMostTwiceTarget(sizes: seq<nat>, batch: nat, target: nat)
    requires Zeros(sizes) == 0 && target > 0 && TotalBytes(sizes) <= target * batch
    ensures |Pack(sizes, batch).starts| <= 2 * target - 1
  {
    if sizes != [] {
      PackingBound(sizes, batch);
      CostIsBytesPlusZeros(sizes);
      var h := |Pack(sizes, batch).starts| / 2;
      if h >= target {
        MulMonotone(target, h, batch);
        assert false;
      }
    }
  }

  lemma MulMonotone(a: nat, b: nat, c: nat)
    requires a <= b
    ensures a * c <= b * c
  {
    assert b * c == a * c + (b - a) * c;
  }

  // Everything fits in one segment exactly when its cost fits the batch, or
  // there is at most one document to place.
  lemma {:induction false} OneSegment(sizes: seq<nat>, batch: nat)
    ensures |Pack(sizes, batch).starts| <= 1 <==> TotalCost(sizes) <= batch || |sizes| <= 1
    ensures |Pack(sizes, batch).starts| <= 1 ==> Pack(sizes, batch).bytes == TotalCost(sizes)
  {
    if |sizes| != 0 {
      var init := sizes[..|sizes| - 1];
      OneSegment(init, batch);
      PackTiles(init, batch);
      CostIsBytesPlusZeros(init);
    }
  }

  // ---------------------------------------------------------------- how full each segment is

  lemma {:induction false} LastRunBytes(sizes: seq<nat>, batch: nat)
    requires sizes != []
    ensures var p := Pack(sizes, batch);
            |p.starts| > 0 && p.starts[|p.starts| - 1] < |sizes|
            && p.bytes == TotalCost(sizes[p.starts[|p.starts| - 1]..])
  {
    var n := |sizes| - 1;
    var init, starts := sizes[..n], Pack(sizes, batch).starts;
    PackTiles(sizes, batch);
    var lo := starts[|starts| - 1];
    assert sizes[lo..][..n - lo] == init[lo..];
    if init != [] {
      LastRunBytes(init, batch);
    }
    assert TotalCost(sizes[lo..]) == TotalCost(init[lo..]) + Cost(sizes[n]);
  }

  // Segment `t` stays within the batch unless it is a single document, and the
  // next document would not have fitted.
  ghost predicate IsGreedy(sizes: seq<nat>, starts: seq<nat>, batch: nat, t: nat)
    requires t < |starts|
  {
    var e := EndOf(starts, t, |sizes|);
    && starts[t] < e <= |sizes|
    && (e - starts[t] == 1 || TotalCost(sizes[starts[t]..e]) <= batch)
    && (t + 1 < |starts| ==> e < |sizes| && TotalCost(sizes[starts[t]..e]) + Cost(sizes[e]) > batch)
  }

  // The packing is exactly greedy, segment by segment.
  lemma {:induction false} PackGreedy(sizes: seq<nat>, batch: nat, t: nat)
    requires t < |Pack(sizes, batch).starts|
    ensures IsGreedy(sizes, Pack(sizes, batch).starts, batch, t)
  {
    var n := |sizes| - 1;
    var before := Pack(sizes[..n], batch).starts;
    if t == |before| {
      PackTiles(sizes[..n], batch);
    } else {
      PackGreedy(sizes[..n], batch, t);
      if t == |before| - 1 {
        LastIsGreedy(sizes, batch);
      } else {
        StaysGreedy(sizes[..n], before, sizes, Pack(sizes, batch).starts, batch, t);
      }
    }
  }

  lemma SliceOfPrefix<T>(xs: seq<T>, n: nat, lo: nat, hi: nat)
    requires lo <= hi <= n <= |xs|
    ensures xs[..n][lo..hi] == xs[lo..hi]
  {
  }

  lemma StaysGreedy(init: seq<nat>, before: seq<nat>, sizes: seq<nat>, starts: seq<nat>, batch: nat, t: nat)
    requires |sizes| == |init| + 1 && sizes[..|init|] == init && before <= starts && t + 1 < |before|
    requires IsGreedy(init, before, batch, t)
    ensures IsGreedy(sizes, starts, batch, t)
  {
    assert starts[t] == before[t] && starts[t + 1] == before[t + 1];
    SliceOfPrefix(sizes, |init|, before[t], before[t + 1]);
    assert sizes[before[t + 1]] == init[before[t + 1]];
  }

  lemma LastIsGreedy(sizes: seq<nat>, batch: nat)
    requires |sizes| > 1
    requires var init := sizes[..|sizes| - 1];
             var before := Pack(init, batch).starts; |before| > 0 && IsGreedy(init, before, batch, |before| - 1)
    ensures var t := |Pack(sizes[..|sizes| - 1], batch).starts| - 1;
            t < |Pack(sizes, batch).starts| && IsGreedy(sizes, Pack(sizes, batch).starts, batch, t)
  {
    var n := |sizes| - 1;
    var init := sizes[..n];
    var before := Pack(init, batch).starts;
    var lo := before[|before| - 1];
    LastRunBytes(init, batch);
    LastRunBytes(sizes, batch);
    PackTiles(init, batch);
    SliceOfPrefix(sizes, n, lo, n);
    assert init[lo..n] == init[lo..] && sizes[lo..|sizes|] == sizes[lo..];
  }
}
