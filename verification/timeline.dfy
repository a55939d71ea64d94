/**
 * The unified timeline of a 0x108 model. Its sequences store only a length;
 * the loader lays them out one after another on one u32 timeline, with a gap
 * of 1000 between consecutive sequences, and later shifts every keyframe of
 * sequence i by the start of sequence i.
 */
module Timeline {
  import opened Bytes
  import opened Records

  /** The gap left between consecutive sequences. */
  const GAP: nat := 1000

  /** laststart before sequence k: the u32 sum of the earlier lengths plus GAP each. */
  function Start(raws: seq<RawSequence>, k: nat): (r: nat)
    requires k <= |raws|
    ensures r < U32_RANGE
    ensures k == 0 ==> r == 0
  {
    if k == 0 then 0 else ToU32(Start(raws, k - 1) + raws[k - 1].length + GAP)
  }

  /** Sequence k placed on the timeline. */
  function Placed(raws: seq<RawSequence>, k: nat): (r: Animation)
    requires k < |raws|
    ensures r.start == Start(raws, k) && r.end == ToU32(Start(raws, k) + raws[k].length)
    ensures r.animationID == raws[k].animationID && r.subanimationID == raws[k].subanimationID
    ensures r.flags == raws[k].flags && r.probability == raws[k].probability
  {
    var s := Start(raws, k);
    Animation(raws[k].animationID, raws[k].subanimationID, s, ToU32(s + raws[k].length), raws[k].flags, raws[k].probability)
  }

  /** The animations of a 0x108 model. */
  function ModernAnimations(raws: seq<RawSequence>): (r: seq<Animation>)
    ensures |r| == |raws|
    ensures forall k :: 0 <= k < |raws| ==> r[k] == Placed(raws, k)
  {
    seq(|raws|, k requires 0 <= k < |raws| => Placed(raws, k))
  }

  /** The same sum without wrap-around. */
  function IdealStart(raws: seq<RawSequence>, k: nat): (r: nat)
    requires k <= |raws|
    ensures forall m :: 0 <= m <= k ==> IdealStart(raws, m) <= r
  {
    if k == 0 then 0 else IdealStart(raws, k - 1) + raws[k - 1].length + GAP
  }

  /** As long as the ideal sum fits in a u32, the stored starts are the ideal ones. */
  lemma {:induction false} StartIsIdeal(raws: seq<RawSequence>, k: nat)
    requires k <= |raws| && IdealStart(raws, |raws|) < U32_RANGE
    ensures Start(raws, k) == IdealStart(raws, k)
    decreases k
  {
    if k > 0 {
      StartIsIdeal(raws, k - 1);
      assert IdealStart(raws, k) <= IdealStart(raws, |raws|);
    }
  }

  /** Sequence k ends `length` after its start, with no wrap-around. */
  lemma EndIsIdeal(raws: seq<RawSequence>, k: nat)
    requires k < |raws| && IdealStart(raws, |raws|) < U32_RANGE
    ensures Placed(raws, k).start == IdealStart(raws, k)
    ensures Placed(raws, k).end == IdealStart(raws, k) + raws[k].length
  {
    StartIsIdeal(raws, k);
    assert IdealStart(raws, k + 1) <= IdealStart(raws, |raws|);
  }

  /**
   * The first sequence starts at 0, each sequence ends `length` after its
   * start and the next starts GAP after that end.
   */
  lemma TimelineAdjacent(raws: seq<RawSequence>)
    requires IdealStart(raws, |raws|) < U32_RANGE
    ensures var a := ModernAnimations(raws);
            (|a| > 0 ==> a[0].start == 0)
            && (forall k :: 0 <= k < |a| ==> a[k].start <= a[k].end && a[k].end - a[k].start == raws[k].length)
            && (forall k :: 0 <= k < |a| - 1 ==> a[k + 1].start == a[k].end + GAP)
  {
    Windows(raws);
    Successors(raws);
  }

  lemma Windows(raws: seq<RawSequence>)
    requires IdealStart(raws, |raws|) < U32_RANGE
    ensures var a := ModernAnimations(raws);
            forall k :: 0 <= k < |a| ==> a[k].start <= a[k].end && a[k].end - a[k].start == raws[k].length
  {
    var a := ModernAnimations(raws);
    forall k | 0 <= k < |a|
      ensures a[k].start <= a[k].end && a[k].end - a[k].start == raws[k].length
    {
      Window(raws, k);
    }
  }

  lemma Successors(raws: seq<RawSequence>)
    requires IdealStart(raws, |raws|) < U32_RANGE
    ensures var a := ModernAnimations(raws);
            forall k :: 0 <= k < |a| - 1 ==> a[k + 1].start == a[k].end + GAP
  {
    var a := ModernAnimations(raws);
    forall k | 0 <= k < |a| - 1
      ensures a[k + 1].start == a[k].end + GAP
    {
      NextStart(raws, k);
    }
  }

  lemma Window(raws: seq<RawSequence>, k: nat)
    requires k < |raws| && IdealStart(raws, |raws|) < U32_RANGE
    ensures ModernAnimations(raws)[k].start <= ModernAnimations(raws)[k].end
    ensures ModernAnimations(raws)[k].end - ModernAnimations(raws)[k].start == raws[k].length
  {
    EndIsIdeal(raws, k);
  }

  lemma NextStart(raws: seq<RawSequence>, k: nat)
    requires k + 1 < |raws| && IdealStart(raws, |raws|) < U32_RANGE
    ensures ModernAnimations(raws)[k + 1].start == ModernAnimations(raws)[k].end + GAP
  {
    EndIsIdeal(raws, k);
    EndIsIdeal(raws, k + 1);
  }

  /** The windows [start, end] of different sequences are ordered and disjoint. */
  lemma TimelineDisjoint(raws: seq<RawSequence>)
    requires IdealStart(raws, |raws|) < U32_RANGE
    ensures var a := ModernAnimations(raws);
            forall k, m :: 0 <= k < m < |a| ==> a[k].end < a[m].start
  {
    var a := ModernAnimations(raws);
    forall k, m | 0 <= k < m < |a|
      ensures a[k].end < a[m].start
    {
      EndIsIdeal(raws, k);
      EndIsIdeal(raws, m);
      assert IdealStart(raws, k + 1) <= IdealStart(raws, m);
    }
  }

  /** Wrap-around: a first sequence of length 2^32 - 1000 puts the second at time 0 again. */
  lemma TimelineWraps(r0: RawSequence, r1: RawSequence)
    requires r0.length == U32_RANGE - GAP
    ensures ModernAnimations([r0, r1])[1].start == 0
  {
    assert Start([r0, r1], 1) == ToU32(U32_RANGE);
  }
}
