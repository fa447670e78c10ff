/** The manager of the rounds (`AttestationRoundManager.ts`): creation, links, and the events of the chain. */
module AttestationRoundManagers {
  import opened AttestationRounds
  import opened Bitmask
  import opened EpochSettings
  import opened Merkle
  import opened RoundState
  import opened VotingWindow
  import opened Wrappers

  class AttestationRoundManager {
    const settings: Settings
    const env: Env
    var rounds: map<nat, AttestationRound>

    ghost predicate Valid()
      reads this, rounds.Values
    {
      forall id :: id in rounds ==> RoundFits(id, rounds[id])
    }

    ghost predicate RoundFits(id: nat, r: AttestationRound)
      reads r
    {
      r.roundId == id && r.env == env && r.Valid() && r.Linked()
    }

    constructor (settings: Settings, env: Env)
      ensures Valid() && rounds == map[] && this.settings == settings && this.env == env
    {
      this.settings := settings;
      this.env := env;
      this.rounds := map[];
    }

    /** When one round changes, the others stay as they are. */
    twostate lemma OthersUntouched(roundId: nat)
      requires old(Valid()) && roundId in old(rounds)
      requires forall id :: id in old(rounds) && id != roundId ==> unchanged(old(rounds)[id])
      requires forall id :: id in old(rounds) ==> old(rounds[id].merkleTree) != null ==> unchanged(old(rounds[id].merkleTree))
      ensures forall id :: id in old(rounds) && id != roundId ==>
                old(rounds)[id].State() == old(rounds[id].State()) && RoundFits(id, old(rounds)[id])
    {
      forall id | id in old(rounds) && id != roundId
        ensures old(rounds)[id].State() == old(rounds[id].State()) && RoundFits(id, old(rounds)[id])
      {
        assert old(RoundFits(id, rounds[id]));
      }
    }

    method OnBitVoteEvent(data: BitVoteData)
      requires Valid()
      modifies rounds.Values
      ensures Valid()
      ensures forall id :: id in rounds ==> rounds[id].State() == Registered(settings, old(rounds[id].State()), id, data)
    {
      var bufferNumber := settings.GetEpochIdForBitVoteTimeSec(data.timestamp);
      if bufferNumber.Some? {
        var roundId := bufferNumber.value - 1;
        if roundId >= 0 && data.RoundCheck(roundId) && roundId in rounds {
          RegisterVote(roundId, data);
        }
      }
    }

    method RegisterVote(roundId: nat, data: BitVoteData)
      requires Valid() && roundId in rounds && CountsFor(settings, data, roundId)
      modifies rounds[roundId]
      ensures Valid()
      ensures forall id :: id in rounds ==> rounds[id].State() == Registered(settings, old(rounds[id].State()), id, data)
    {
      var round := rounds[roundId];
      assert RoundFits(roundId, round);
      round.RegisterBitVote(LowerCase(data.sender), VoteDigits(data.BitVote()));
      assert RoundFits(roundId, round);
      OthersUntouched(roundId);
    }

    method CloseRound(roundId: nat, timestamp: nat, random: Hash)
      requires Valid() && roundId in rounds && EndsVoting(settings, timestamp, roundId)
      modifies rounds[roundId]
      ensures Valid()
      ensures forall id :: id in rounds ==> rounds[id].State() == Closed(settings, env, old(rounds[id].State()), id, timestamp, random)
    {
      var round := rounds[roundId];
      assert RoundFits(roundId, round);
      round.CloseBitVoting(random);
      assert RoundFits(roundId, round);
      OthersUntouched(roundId);
    }

    method OnLastFlareNetworkTimestamp(timestamp: nat, random: Hash)
      requires Valid()
      modifies rounds.Values
      ensures Valid()
      ensures forall id :: id in rounds ==> rounds[id].State() == Closed(settings, env, old(rounds[id].State()), id, timestamp, random)
    {
      var bufferNumber := settings.GetEpochIdForBitVoteTimeSec(timestamp);
      if bufferNumber.None? {
        var roundId := settings.GetEpochIdForTimeSec(timestamp) - 1;
        if roundId >= 0 && roundId in rounds {
          CloseRound(roundId, timestamp, random);
          return;
        }
      }
      NothingCloses(timestamp, random);
    }

    lemma NothingCloses(timestamp: nat, random: Hash)
      requires Valid() && forall id :: id in rounds ==> !EndsVoting(settings, timestamp, id)
      ensures forall id :: id in rounds ==> rounds[id].State() == Closed(settings, env, rounds[id].State(), id, timestamp, random)
    {}

    /**
     The round of an epoch, created and linked to its predecessor if it is new.  Without a predecessor
     it is to make its first commit itself.  Creation forgets the round ten epochs back.
     */
    method GetRoundOrCreateIt(roundId: nat, defaultSet: seq<string>, currentEpoch: int) returns (r: AttestationRound, firstCommit: bool)
      requires Valid() && env.assigners > 0
      modifies this, rounds.Values
      ensures Valid()
      ensures roundId in old(rounds) ==> rounds == old(rounds) && r == rounds[roundId] && !firstCommit
      ensures roundId !in old(rounds) ==>
                && fresh(r) && r.State() == NewRound(roundId, defaultSet)
                && rounds == WithoutOld(old(rounds)[roundId := r], currentEpoch)
                && rounds == old(rounds)[roundId := r] - (if currentEpoch >= 10 then {(currentEpoch - 10) as nat} else {})
                && (firstCommit <==> roundId == 0 || roundId - 1 !in rounds)
                && (firstCommit ==> r.prevRound == null)
                && (!firstCommit ==> r.prevRound == rounds[roundId - 1] && rounds[roundId - 1].nextRound == r)
      ensures forall id :: id in old(rounds) && id in rounds ==> rounds[id].State() == old(rounds[id].State())
    {
      if roundId in rounds {
        return rounds[roundId], false;
      }
      r := AddRound(roundId, defaultSet, currentEpoch);
      if roundId > 0 && roundId - 1 in rounds {
        assert RoundFits(roundId - 1, rounds[roundId - 1]);
        LinkRounds(rounds[roundId - 1], r);
        firstCommit := false;
      } else {
        firstCommit := true;
      }
    }

    method AddRound(roundId: nat, defaultSet: seq<string>, currentEpoch: int) returns (r: AttestationRound)
      requires Valid() && env.assigners > 0 && roundId !in rounds
      modifies `rounds
      ensures Valid()
      ensures fresh(r) && r.State() == NewRound(roundId, defaultSet) && RoundFits(roundId, r) && r.prevRound == null
      ensures rounds == WithoutOld(old(rounds)[roundId := r], currentEpoch)
      ensures forall id :: id in old(rounds) && id in rounds ==> rounds[id] == old(rounds)[id] && rounds[id].State() == old(rounds[id].State())
    {
      r := new AttestationRound(roundId, env, defaultSet);
      rounds := rounds[roundId := r];
      rounds := WithoutOld(rounds, currentEpoch);
    }

    method LinkRounds(prevRound: AttestationRound, r: AttestationRound)
      requires Valid() && RoundFits(r.roundId, r)
      requires prevRound.roundId + 1 == r.roundId && prevRound.roundId in rounds && rounds[prevRound.roundId] == prevRound
      modifies r`prevRound, prevRound`nextRound
      ensures Valid()
      ensures r.prevRound == prevRound && prevRound.nextRound == r && r.State() == old(r.State())
      ensures forall id :: id in rounds ==> rounds[id].State() == old(rounds[id].State())
    {
      r.prevRound := prevRound;
      prevRound.nextRound := r;
      forall id | id in rounds ensures RoundFits(id, rounds[id]) && rounds[id].State() == old(rounds[id].State()) {
        assert old(RoundFits(id, rounds[id]));
      }
    }
  }

  function WithoutOld(rounds: map<nat, AttestationRound>, currentEpoch: int): map<nat, AttestationRound> {
    if currentEpoch >= 10 then rounds - {(currentEpoch - 10) as nat} else rounds
  }

  // ---------- the schedule of a round ----------

  function ChooseStart(s: Settings, id: nat): int {
    s.GetRoundIdTimeStart(id) + s.epochPeriod
  }

  function CommitStart(s: Settings, id: nat): int {
    ChooseStart(s, id) + s.bitVoteWindow
  }

  function RevealStart(s: Settings, id: nat): int {
    ChooseStart(s, id) + s.epochPeriod
  }

  function Complete(s: Settings, id: nat): int {
    RevealStart(s, id) + s.epochPeriod
  }

  /** When the round reveals, and commits its successor: an offset from the end of its reveal phase. */
  function SubmitTime(s: Settings, id: nat, commitTime: int): int {
    Complete(s, id) + commitTime
  }

  /** The phase the scheduled callbacks have put a round in by a moment. */
  function PhaseAt(s: Settings, id: nat, time: int): Phase {
    if time < ChooseStart(s, id) then Collect
    else if time < CommitStart(s, id) then Choose
    else if time < RevealStart(s, id) then Commit
    else if time < Complete(s, id) then InReveal
    else Finalise
  }

  /**
   A submission finds its own round revealing and the next one committing exactly when the configured
   offset is negative and reaches back no further than the commit phase.  A positive offset, as the
   documentation of the setting has it, would always come too late.
   */
  lemma SubmissionTiming(s: Settings, id: nat, commitTime: int)
    requires s.bitVoteWindow <= s.epochPeriod
    ensures PhaseAt(s, id, SubmitTime(s, id, commitTime)) == InReveal && PhaseAt(s, id + 1, SubmitTime(s, id, commitTime)) == Commit
            <==> s.bitVoteWindow - s.epochPeriod <= commitTime < 0
  {
    assert (id + 1) * s.epochPeriod == id * s.epochPeriod + s.epochPeriod;
  }

  /** With the offset written as documented the round is over when it is to be submitted. */
  lemma PositiveOffsetIsLate()
    ensures var s := Settings(0, 90000, 45000); PhaseAt(s, 3, SubmitTime(s, 3, 20000)) == Finalise && PhaseAt(s, 3, SubmitTime(s, 3, -20000)) == InReveal
  {
    SubmissionTiming(Settings(0, 90000, 45000), 3, -20000);
  }

  /** The phases of a round are the epochs after its own: the choose phase starts its vote window, which is that of the next epoch. */
  lemma ChooseIsNextEpoch(s: Settings, id: nat, timeSec: int)
    requires s.bitVoteWindow < s.epochPeriod
    ensures PhaseAt(s, id, 1000 * timeSec) == Choose ==> s.GetEpochIdForBitVoteTimeSec(timeSec) == Some(id + 1)
    ensures PhaseAt(s, id, 1000 * timeSec) == Commit && 1000 * timeSec > CommitStart(s, id) && timeSec >= 0 ==> EndsVoting(s, timeSec, id)
  {
    var time := 1000 * timeSec;
    assert (id + 1) * s.epochPeriod == id * s.epochPeriod + s.epochPeriod;
    MulMonotone(0, id, s.epochPeriod);
    if ChooseStart(s, id) <= time < RevealStart(s, id) {
      QuotientIs(time - s.firstEpochStart, s.epochPeriod, id + 1);
    }
  }
}
