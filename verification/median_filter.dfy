/**
 MedianFilter of src/bl0937.cpp: a window of three counts-per-second samples and
 its middle element.
 */
module MedianFilter {
  import opened Units

  const FILTER_DEPTH: nat := 3

  /** m is one of the three values, two of them do not exceed it, two are not below it. */
  predicate IsMiddle(m: int, a: int, b: int, c: int) {
    && (m == a || m == b || m == c)
    && ((a <= m && b <= m) || (a <= m && c <= m) || (b <= m && c <= m))
    && ((m <= a && m <= b) || (m <= a && m <= c) || (m <= b && m <= c))
  }

  /** The middle of three: the larger of the smaller pair-ends. */
  function Middle(a: uint32, b: uint32, c: uint32): (m: uint32)
    ensures IsMiddle(m, a, b, c)
  {
    Max(Min(a, b), Min(Max(a, b), c))
  }

  /** There is only one middle value, whatever the order of the samples. */
  lemma MiddleIsUnique(m: uint32, a: uint32, b: uint32, c: uint32)
    ensures IsMiddle(m, a, b, c) <==> m == Middle(a, b, c)
    ensures Middle(a, b, c) == Middle(b, a, c) == Middle(a, c, b)
  {
  }

  /** An arbitrary first sample cannot push the middle out of the interval of the other two. */
  lemma OutlierIsDiscarded(outlier: uint32, b: uint32, c: uint32)
    ensures Min(b, c) <= Middle(outlier, b, c) <= Max(b, c)
  {
  }

  class MedianFilter {
    const samples: array<uint32>
    var count: nat

    ghost predicate Valid()
      reads this
    {
      samples.Length == FILTER_DEPTH && count < FILTER_DEPTH
    }

    /** The samples of the window being collected; older array contents do not matter. */
    ghost function Pending(): (p: seq<uint32>)
      requires Valid()
      reads this, samples
      ensures |p| == count
    {
      samples[..count]
    }

    constructor ()
      ensures Valid() && fresh(samples) && Pending() == []
    {
      samples := new uint32[FILTER_DEPTH](_ => 0);
      count := 0;
    }

    /** Stores one sample. Every third call completes a window and yields its middle value. */
    method Push(sample: uint32) returns (complete: bool, median: uint32)
      requires Valid()
      modifies this, samples
      ensures Valid()
      ensures complete <==> |old(Pending())| == FILTER_DEPTH - 1
      ensures complete ==> Pending() == [] && IsMiddle(median, old(Pending())[0], old(Pending())[1], sample)
      ensures !complete ==> Pending() == old(Pending()) + [sample]
    {
      median := 0;
      samples[count] := sample;
      count := count + 1;
      if count < FILTER_DEPTH {
        assert samples[..count] == old(samples[..count]) + [sample];
        complete := false;
        return;
      }
      count := 0;

      // Sorting network for three elements.
      var a, b, c := samples[0], samples[1], samples[2];
      if a > b {
        a, b := b, a;
      }
      if b > c {
        b, c := c, b;
      }
      if a > b {
        a, b := b, a;
      }
      median := b;
      complete := true;
    }
  }
}
