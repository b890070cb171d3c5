/**
 * The pixel comparison at the heart of `DesktopDuplicator::checkForChanges`
 * (src/graphics/desktop_duplicator.cpp:134-176): a per-channel threshold test
 * that counts changed pixels, plus the running per-channel maxima and the index
 * of the last pixel that raised one of them.
 */
module ChangeDetection {
  import opened Pixels

  /** A pixel is changed when any single channel differs by strictly more than `threshold`. */
  predicate PixelChanged(cur: Color, ref: Color, threshold: int)
  {
    ChannelDiff(Red, cur, ref) > threshold
    || ChannelDiff(Green, cur, ref) > threshold
    || ChannelDiff(Blue, cur, ref) > threshold
  }

  /** Number of changed pixels among the first `n` positions of two equally long frames. */
  function ChangedCount(cur: seq<Color>, ref: seq<Color>, threshold: int, n: nat): (count: nat)
    requires |cur| == |ref| && n <= |cur|
    ensures count <= n
  {
    if n == 0 then 0
    else ChangedCount(cur, ref, threshold, n - 1)
         + (if PixelChanged(cur[n - 1], ref[n - 1], threshold) then 1 else 0)
  }

  /** The set of changed positions below `n`: an independent description of the count. */
  ghost function ChangedPositions(cur: seq<Color>, ref: seq<Color>, threshold: int, n: nat): set<nat>
    requires |cur| == |ref| && n <= |cur|
  {
    set i: nat | i < n && PixelChanged(cur[i], ref[i], threshold)
  }

  /** Largest difference of channel `ch` among the first `n` positions (0 for none). */
  function MaxDiff(ch: Channel, cur: seq<Color>, ref: seq<Color>, n: nat): nat
    requires |cur| == |ref| && n <= |cur|
  {
    if n == 0 then 0
    else
      var d := ChannelDiff(ch, cur[n - 1], ref[n - 1]);
      var m := MaxDiff(ch, cur, ref, n - 1);
      if d > m then d else m
  }

  /** Position `i` strictly raises the running maximum of at least one channel. */
  predicate RaisesMax(cur: seq<Color>, ref: seq<Color>, i: nat)
    requires |cur| == |ref| && i < |cur|
  {
    ChannelDiff(Red, cur[i], ref[i]) > MaxDiff(Red, cur, ref, i)
    || ChannelDiff(Green, cur[i], ref[i]) > MaxDiff(Green, cur, ref, i)
    || ChannelDiff(Blue, cur[i], ref[i]) > MaxDiff(Blue, cur, ref, i)
  }

  /** `maxDiffPixelIndex`: last position below `n` that raised some maximum, or -1. */
  function LastRaise(cur: seq<Color>, ref: seq<Color>, n: nat): int
    requires |cur| == |ref| && n <= |cur|
  {
    if n == 0 then -1
    else if RaisesMax(cur, ref, n - 1) then n - 1
    else LastRaise(cur, ref, n - 1)
  }

  /** What one comparison pass computes (the values behind the debug and trigger-reason text). */
  datatype DiffReport = DiffReport(changed: nat, maxR: nat, maxG: nat, maxB: nat, maxIndex: int)

  /** The decision of line 176: inclusive comparison against the pixel threshold. */
  predicate Triggered(changed: nat, pixelChangeThreshold: int)
  {
    changed >= pixelChangeThreshold
  }

  /**
   * The comparison loop of lines 134-167 over two frames of equal size (the
   * size check of lines 129-132 happens before it).
   */
  method CompareFrames(cur: seq<Color>, ref: seq<Color>, threshold: int) returns (report: DiffReport)
    requires |cur| == |ref|
    ensures report.changed == ChangedCount(cur, ref, threshold, |cur|)
    ensures report.maxR == MaxDiff(Red, cur, ref, |cur|)
    ensures report.maxG == MaxDiff(Green, cur, ref, |cur|)
    ensures report.maxB == MaxDiff(Blue, cur, ref, |cur|)
    ensures report.maxIndex == LastRaise(cur, ref, |cur|)
  {
    var pixelChanges := 0;
    var maxRDiff, maxGDiff, maxBDiff := 0, 0, 0;
    var maxDiffPixelIndex := -1;
    var i := 0;
    while i < |cur|
      invariant 0 <= i <= |cur|
      invariant pixelChanges == ChangedCount(cur, ref, threshold, i)
      invariant maxRDiff == MaxDiff(Red, cur, ref, i)
      invariant maxGDiff == MaxDiff(Green, cur, ref, i)
      invariant maxBDiff == MaxDiff(Blue, cur, ref, i)
      invariant maxDiffPixelIndex == LastRaise(cur, ref, i)
    {
      var rDiff := ChannelDiff(Red, cur[i], ref[i]);
      var gDiff := ChannelDiff(Green, cur[i], ref[i]);
      var bDiff := ChannelDiff(Blue, cur[i], ref[i]);
      if rDiff > maxRDiff {
        maxRDiff := rDiff;
        maxDiffPixelIndex := i;
      }
      if gDiff > maxGDiff {
        maxGDiff := gDiff;
        maxDiffPixelIndex := i;
      }
      if bDiff > maxBDiff {
        maxBDiff := bDiff;
        maxDiffPixelIndex := i;
      }
      if rDiff > threshold || gDiff > threshold || bDiff > threshold {
        pixelChanges := pixelChanges + 1;
      }
      i := i + 1;
    }
    report := DiffReport(pixelChanges, maxRDiff, maxGDiff, maxBDiff, maxDiffPixelIndex);
  }

  /** The count is exactly the number of positions whose pixel is changed. */
  lemma {:induction false} ChangedCountIsCardinality(cur: seq<Color>, ref: seq<Color>, threshold: int, n: nat)
    requires |cur| == |ref| && n <= |cur|
    ensures ChangedCount(cur, ref, threshold, n) == |ChangedPositions(cur, ref, threshold, n)|
  {
    if n > 0 {
      ChangedCountIsCardinality(cur, ref, threshold, n - 1);
      var before := ChangedPositions(cur, ref, threshold, n - 1);
      var now := ChangedPositions(cur, ref, threshold, n);
      if PixelChanged(cur[n - 1], ref[n - 1], threshold) {
        assert now == before + {n - 1};
      } else {
        assert now == before;
      }
    }
  }

  /** Comparing a frame with itself changes nothing, so it never triggers a positive pixel threshold. */
  lemma {:induction false} IdenticalFramesNeverTrigger(f: seq<Color>, threshold: int, pixelChangeThreshold: int, n: nat)
    requires 0 <= threshold && n <= |f|
    requires pixelChangeThreshold >= 1
    ensures ChangedCount(f, f, threshold, n) == 0
    ensures !Triggered(ChangedCount(f, f, threshold, n), pixelChangeThreshold)
  {
    if n > 0 {
      IdenticalFramesNeverTrigger(f, threshold, pixelChangeThreshold, n - 1);
    }
  }

  /** A larger byte threshold never increases the number of changed pixels. */
  lemma {:induction false} ChangedCountAntitone(cur: seq<Color>, ref: seq<Color>, t1: int, t2: int, n: nat)
    requires |cur| == |ref| && n <= |cur|
    requires t1 <= t2
    ensures ChangedCount(cur, ref, t2, n) <= ChangedCount(cur, ref, t1, n)
  {
    if n > 0 {
      ChangedCountAntitone(cur, ref, t1, t2, n - 1);
    }
  }

  /** Each tracked maximum bounds its channel's difference everywhere and is attained (or 0). */
  lemma {:induction false} MaxDiffIsMaximum(ch: Channel, cur: seq<Color>, ref: seq<Color>, n: nat)
    requires |cur| == |ref| && n <= |cur|
    ensures forall i | 0 <= i < n :: ChannelDiff(ch, cur[i], ref[i]) <= MaxDiff(ch, cur, ref, n)
    ensures MaxDiff(ch, cur, ref, n) == 0
            || exists i | 0 <= i < n :: ChannelDiff(ch, cur[i], ref[i]) == MaxDiff(ch, cur, ref, n)
  {
    if n > 0 {
      MaxDiffIsMaximum(ch, cur, ref, n - 1);
    }
  }

  /** `maxDiffPixelIndex` stays -1 exactly when no channel differs anywhere. */
  lemma {:induction false} NoRaiseIffIdentical(cur: seq<Color>, ref: seq<Color>, n: nat)
    requires |cur| == |ref| && n <= |cur|
    ensures LastRaise(cur, ref, n) == -1 <==> forall i | 0 <= i < n :: cur[i] == ref[i]
  {
    if n > 0 {
      NoRaiseIffIdentical(cur, ref, n - 1);
      if forall i | 0 <= i < n - 1 :: cur[i] == ref[i] {
        MaxDiffIsMaximum(Red, cur, ref, n - 1);
        MaxDiffIsMaximum(Green, cur, ref, n - 1);
        MaxDiffIsMaximum(Blue, cur, ref, n - 1);
        assert MaxDiff(Red, cur, ref, n - 1) == 0;
        assert MaxDiff(Green, cur, ref, n - 1) == 0;
        assert MaxDiff(Blue, cur, ref, n - 1) == 0;
        if cur[n - 1] != ref[n - 1] {
          var c, r := cur[n - 1], ref[n - 1];
          assert c.r != r.r || c.g != r.g || c.b != r.b;
          assert RaisesMax(cur, ref, n - 1);
        }
      } else {
        assert LastRaise(cur, ref, n - 1) != -1;
        assert LastRaise(cur, ref, n - 1) >= 0 by { LastRaiseInRange(cur, ref, n - 1); }
      }
    }
  }

  lemma {:induction false} LastRaiseInRange(cur: seq<Color>, ref: seq<Color>, n: nat)
    requires |cur| == |ref| && n <= |cur|
    ensures -1 <= LastRaise(cur, ref, n) < n
  {
    if n > 0 {
      LastRaiseInRange(cur, ref, n - 1);
    }
  }

  /**
   * When set, `maxDiffPixelIndex` is a position that raised some channel's maximum,
   * and no later position raised any (last writer wins).
   */
  lemma {:induction false} LastRaiseIsLastIncrease(cur: seq<Color>, ref: seq<Color>, n: nat)
    requires |cur| == |ref| && n <= |cur|
    requires LastRaise(cur, ref, n) != -1
    ensures 0 <= LastRaise(cur, ref, n) < n
    ensures RaisesMax(cur, ref, LastRaise(cur, ref, n))
    ensures forall j | LastRaise(cur, ref, n) < j < n :: !RaisesMax(cur, ref, j)
  {
    if !RaisesMax(cur, ref, n - 1) {
      LastRaiseIsLastIncrease(cur, ref, n - 1);
    }
  }

  /** Truncation toward zero, as `static_cast<int>` does to a `double`. */
  function Truncate(x: real): int
  {
    if x >= 0.0 then x.Floor else -((-x).Floor)
  }

  /** The per-channel byte threshold of line 140, `trunc(sensitivity * 0.01 * 255)`, in exact arithmetic. */
  function ByteThreshold(sensitivity: real): int
  {
    Truncate(sensitivity * 255.0 / 100.0)
  }

  lemma TruncateMonotone(x: real, y: real)
    requires x <= y
    ensures Truncate(x) <= Truncate(y)
  {
    if x >= 0.0 {
    } else if y >= 0.0 {
    } else {
      assert (-y).Floor <= (-x).Floor;
    }
  }

  /** Raising the sensitivity never lowers the threshold and never increases the changed count. */
  lemma SensitivityMonotone(cur: seq<Color>, ref: seq<Color>, s1: real, s2: real)
    requires |cur| == |ref|
    requires s1 <= s2
    ensures ByteThreshold(s1) <= ByteThreshold(s2)
    ensures ChangedCount(cur, ref, ByteThreshold(s2), |cur|) <= ChangedCount(cur, ref, ByteThreshold(s1), |cur|)
  {
    TruncateMonotone(s1 * 255.0 / 100.0, s2 * 255.0 / 100.0);
    ChangedCountAntitone(cur, ref, ByteThreshold(s1), ByteThreshold(s2), |cur|);
  }

  /** The conversion truncates: 1% of 255 is 2.55, which gives 2, not the rounded 3. */
  lemma ThresholdTruncates()
    ensures ByteThreshold(1.0) == 2
    ensures ByteThreshold(40.0) == 102
    ensures ByteThreshold(-1.0) == -2
  {
  }
}
