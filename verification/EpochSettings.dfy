/** Which epoch a moment belongs to, and whether bit votes still count then (`EpochSettings.ts`). */
module EpochSettings {
  import opened Wrappers

  /** Division of big integers, which drops the fraction: it rounds towards zero. */
  function TruncatedDiv(a: int, b: int): int
    requires b > 0
  {
    if a >= 0 then a / b else -((-a) / b)
  }

  type Period = p: int | p > 0 witness 1

  /** All in milliseconds. */
  datatype Settings = Settings(firstEpochStart: int, epochPeriod: Period, bitVoteWindow: nat) {
    function GetEpochIdForTime(time: int): int {
      TruncatedDiv(time - firstEpochStart, epochPeriod)
    }

    function GetEpochIdForTimeSec(timeSec: int): int {
      GetEpochIdForTime(timeSec * 1000)
    }

    /** The epoch, if the moment is not past the bit voting deadline in it. */
    function GetEpochIdForBitVoteTimeSec(timeSec: int): Option<int> {
      var epochId := GetEpochIdForTime(timeSec * 1000);
      var offset := timeSec * 1000 - (firstEpochStart + epochId * epochPeriod);
      if offset <= bitVoteWindow then Some(epochId) else None
    }

    function GetRoundIdTimeStart(id: int): int {
      firstEpochStart + id * epochPeriod
    }

    function GetEpochIdTimeEnd(id: int): int {
      GetRoundIdTimeStart(id) + epochPeriod
    }

    function GetOffsetInBufferWindow(timeSec: int): int
      requires firstEpochStart % 1000 == 0 && epochPeriod % 1000 == 0
    {
      timeSec - firstEpochStart / 1000 + GetEpochIdForTimeSec(timeSec) * (epochPeriod / 1000)
    }

    ghost predicate InEpoch(time: int, id: int) {
      GetRoundIdTimeStart(id) <= time < GetEpochIdTimeEnd(id)
    }
  }

  lemma QuotientIs(x: int, p: Period, q: int)
    requires q * p <= x < q * p + p
    ensures x / p == q
  {
    var r := x / p;
    assert r * p <= x < r * p + p;
    DisjointMultiples(q, r, x, p);
  }

  lemma DisjointMultiples(q: int, r: int, x: int, p: Period)
    requires q * p <= x < q * p + p && r * p <= x < r * p + p
    ensures q == r
  {
    if q < r { MulMonotone(q + 1, r, p); }
    if r < q { MulMonotone(r + 1, q, p); }
  }

  lemma MulMonotone(a: int, b: int, p: Period)
    requires a <= b
    ensures a * p <= b * p
  {}

  /** The epochs are disjoint. */
  lemma EpochUnique(s: Settings, time: int, id1: int, id2: int)
    requires s.InEpoch(time, id1) && s.InEpoch(time, id2)
    ensures id1 == id2
  {
    QuotientIs(time - s.firstEpochStart, s.epochPeriod, id1);
    QuotientIs(time - s.firstEpochStart, s.epochPeriod, id2);
  }

  /**
   The id computed for a moment is the one epoch that contains it exactly when the moment is not
   before the first epoch, or is a whole number of periods before it: earlier, rounding towards zero
   names the epoch after the right one.
   */
  lemma EpochOfTime(s: Settings, time: int)
    ensures s.InEpoch(time, s.GetEpochIdForTime(time)) <==>
            time >= s.firstEpochStart || (s.firstEpochStart - time) % s.epochPeriod == 0
    ensures !s.InEpoch(time, s.GetEpochIdForTime(time)) ==> s.InEpoch(time, s.GetEpochIdForTime(time) - 1)
  {
    var p := s.epochPeriod;
    var diff := time - s.firstEpochStart;
    var q := s.GetEpochIdForTime(time);
    if diff < 0 {
      var m := -diff;
      assert m == m / p * p + m % p;
      assert q == -(m / p);
      assert q * p == -(m / p * p);
      assert (q - 1) * p == q * p - p;
    }
  }

  /** The millisecond before the first epoch is taken to be in it. */
  lemma BeforeFirstEpoch()
    ensures var s := Settings(0, 1000, 0); s.GetEpochIdForTime(-1) == 0 && s.InEpoch(-1, -1) && !s.InEpoch(-1, 0)
  {
    EpochOfTime(Settings(0, 1000, 0), -1);
  }

  lemma EpochIdOfStart(s: Settings, id: nat)
    ensures s.GetEpochIdForTime(s.GetRoundIdTimeStart(id)) == id
  {
    MulMonotone(0, id, s.epochPeriod);
    QuotientIs(id * s.epochPeriod, s.epochPeriod, id);
  }

  lemma EpochMonotone(s: Settings, t1: int, t2: int)
    requires t1 <= t2
    ensures s.GetEpochIdForTime(t1) <= s.GetEpochIdForTime(t2)
  {
    var d1, d2, p := t1 - s.firstEpochStart, t2 - s.firstEpochStart, s.epochPeriod;
    if d1 >= 0 {
      QuotientMonotone(d1, d2, p);
    } else if d2 < 0 {
      QuotientMonotone(-d2, -d1, p);
    } else {
      QuotientMonotone(0, -d1, p);
      QuotientMonotone(0, d2, p);
    }
  }

  lemma QuotientMonotone(a: nat, b: nat, p: Period)
    requires a <= b
    ensures a / p <= b / p && 0 / p == 0
  {
    QuotientIs(0, p, 0);
    if b / p < a / p { MulMonotone(b / p + 1, a / p, p); }
  }

  /** Once the deadline of an epoch has passed, no later moment is within it. */
  lemma DeadlinePasses(s: Settings, t1: int, t2: int)
    requires t1 <= t2 && s.GetEpochIdForBitVoteTimeSec(t1).None?
    ensures s.GetEpochIdForBitVoteTimeSec(t2) != Some(s.GetEpochIdForTimeSec(t1))
  {}

  /**
   From the first epoch on, votes count exactly in the epoch that contains their moment and up to
   the deadline in it, the deadline included.  Before the first epoch they always count.
   */
  lemma BitVoteWindow(s: Settings, timeSec: int, id: int)
    ensures 1000 * timeSec >= s.firstEpochStart ==>
              (s.GetEpochIdForBitVoteTimeSec(timeSec) == Some(id) <==>
               s.InEpoch(1000 * timeSec, id) && 1000 * timeSec <= s.GetRoundIdTimeStart(id) + s.bitVoteWindow)
    ensures 1000 * timeSec < s.firstEpochStart ==> s.GetEpochIdForBitVoteTimeSec(timeSec).Some?
  {
    var time := 1000 * timeSec;
    EpochOfTime(s, time);
    if time >= s.firstEpochStart {
      if s.InEpoch(time, id) { EpochUnique(s, time, id, s.GetEpochIdForTime(time)); }
    } else {
      var m, p := s.firstEpochStart - time, s.epochPeriod;
      assert s.GetEpochIdForTime(time) == -(m / p);
      assert -(m / p) * p == -(m / p * p);
      assert m / p * p <= m;
    }
  }

  /** The offset helper adds where it should subtract: it gives the offset from the epoch's start in epoch 0 only. */
  lemma OffsetRightOnlyInFirstEpoch(s: Settings, timeSec: int)
    requires s.firstEpochStart % 1000 == 0 && s.epochPeriod % 1000 == 0
    ensures 1000 * s.GetOffsetInBufferWindow(timeSec) == 1000 * timeSec - s.GetRoundIdTimeStart(s.GetEpochIdForTimeSec(timeSec))
            <==> s.GetEpochIdForTimeSec(timeSec) == 0
  {
    var id, p := s.GetEpochIdForTimeSec(timeSec), s.epochPeriod;
    assert 1000 * (id * (p / 1000)) == id * p by { assert p == 1000 * (p / 1000); }
    assert 1000 * (s.firstEpochStart / 1000) == s.firstEpochStart;
    assert id * p + id * p == 0 <==> id == 0 by {
      if id > 0 { MulMonotone(1, id, p); }
      if id < 0 { MulMonotone(id, -1, p); }
    }
  }

  /** At the very start of epoch 5 the offset is given as 10 seconds. */
  lemma OffsetOfFifthEpoch()
    ensures var s := Settings(0, 1000, 0); s.GetRoundIdTimeStart(5) == 5000 && s.GetEpochIdForTimeSec(5) == 5 && s.GetOffsetInBufferWindow(5) == 10
  {
    EpochIdOfStart(Settings(0, 1000, 0), 5);
  }
}
