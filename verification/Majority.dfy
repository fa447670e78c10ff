/** Half of the assigners decide: when the agreed vote has a bit at all, and when a round's result has an index. */
module Majority {
  import opened AgreedLeaves
  import opened Bitmask
  import opened CommitReveal
  import opened Hex
  import opened Merkle
  import opened RoundInvariant
  import opened RoundState
  import opened Sets
  import opened Subsets
  import opened TextOrder
  import opened VoteAgreement
  import opened VoteChoice
  import opened Wrappers

  // ---------- bits and ones ----------

  lemma DigitHasBit(d: Nibble) returns (k: nat)
    requires d != 0
    ensures k < 4 && Bit(d, k)
  {
    k := if Bit(d, 0) then 0 else if Bit(d, 1) then 1 else if Bit(d, 2) then 2 else 3;
    if !Bit(d, k) {
      forall k: nat | k < 4 ensures Bit(d, k) <==> Bit(0, k) { ZeroBits(k); }
      NibbleFromBits(d, 0);
    }
  }

  lemma DigitsHaveBit(m: Digits)
    ensures (exists i :: 0 <= i < |m| && m[i] != 0) <==> exists p: nat :: BitFromRight(m, p)
  {
    if i :| 0 <= i < |m| && m[i] != 0 {
      var k := DigitHasBit(m[i]);
      var p := 4 * (|m| - 1 - i) + k;
      assert p / 4 == |m| - 1 - i && p % 4 == k;
      assert BitFromRight(m, p);
    }
    if p: nat :| BitFromRight(m, p) {
      ZeroBits(p % 4);
      assert m[|m| - 1 - p / 4] != 0;
    }
  }

  lemma {:induction false} OnesMeanDigits(m: Digits)
    requires |m| % 2 == 0
    ensures Ones(m) > 0 <==> exists i :: 0 <= i < |m| && m[i] != 0
    decreases |m|
  {
    if m != [] {
      var rest := m[2..];
      OnesMeanDigits(rest);
      OnesOfByte(ByteOf(m[0], m[1]));
      if i :| 0 <= i < |m| && m[i] != 0 {
        assert i >= 2 ==> rest[i - 2] == m[i];
      }
      if i :| 0 <= i < |rest| && rest[i] != 0 {
        assert m[i + 2] == rest[i];
      }
    }
  }

  lemma {:induction false} OnesOfByte(n: nat)
    ensures OnesIn(n) > 0 <==> n > 0
  {
    if n > 0 { OnesOfByte(n / 2); }
  }

  lemma OnesMeanBits(m: Digits)
    requires WellFormed(m)
    ensures Ones(m) > 0 <==> exists p: nat :: BitFromRight(m, p)
  {
    DigitsHaveBit(m);
    if m != [0] { OnesMeanDigits(m); }
  }

  // ---------- the agreed vote ----------

  /** So many of a set of positions, in order. */
  lemma {:induction false} SelectFrom(s: set<nat>, lo: nat, n: nat, k: nat) returns (sel: seq<nat>)
    requires (forall x :: x in s ==> lo <= x < n) && |s| >= k
    ensures Selection(sel, lo, n, k) && forall i :: 0 <= i < |sel| ==> sel[i] in s
    decreases n - lo
  {
    if k == 0 {
      sel := [];
    } else {
      var x :| x in s;
      if lo in s {
        var rest := SelectFrom(s - {lo}, lo + 1, n, k - 1);
        sel := [lo] + rest;
      } else {
        sel := SelectFrom(s, lo + 1, n, k);
      }
    }
  }

  /** A mask with ones sorts after one without. */
  lemma ChosenHasOnes(votes: seq<Digits>, k: nat, m: Digits, sel: seq<nat>)
    requires IsChosen(votes, k, m) && Group(votes, k, sel) && Ones(Intersection(votes, sel)) > 0
    ensures Ones(m) > 0
  {
    var c := Intersection(votes, sel);
    if Ones(m) == 0 {
      CountOrder(0, Ones(c), "0x" + Text(m), "0x" + Text(c));
      StringLeqTotal(MaskText(c), MaskText(m));
    }
  }

  lemma GroupHasBit(votes: seq<Digits>, k: nat, p: nat) returns (sel: seq<nat>)
    requires AllWellFormed(votes) && k > 0 && |SupportersFromRight(votes, p)| >= k
    ensures Group(votes, k, sel) && Ones(Intersection(votes, sel)) > 0
  {
    sel := SelectFrom(SupportersFromRight(votes, p), 0, |votes|, k);
    var group := Pick(votes, sel);
    IntersectAllMeaning(group, p);
    OnesMeanBits(IntersectAll(group));
  }

  /** The agreed vote has a bit exactly if some bit has the wanted number of votes behind it. */
  lemma AgreedIffShared(votes: seq<Digits>, k: nat, m: Digits)
    requires AllWellFormed(votes) && IsChosen(votes, k, m)
    ensures Ones(m) > 0 <==> exists p: nat :: |SupportersFromRight(votes, p)| >= k
  {
    ChosenWellFormed(votes, k, m);
    OnesMeanBits(m);
    if p: nat :| BitFromRight(m, p) {
      AgreedBitsSupportedFromRight(votes, k, m, p);
    }
    if p: nat :| |SupportersFromRight(votes, p)| >= k {
      var sel: seq<nat> :| Group(votes, k, sel);
      var sel2 := GroupHasBit(votes, k, p);
      ChosenHasOnes(votes, k, m, sel2);
    }
  }

  // ---------- the result of a round ----------

  /** At least half of the assigners set bit `p`, counted from the right. */
  ghost predicate HalfShare(votes: seq<Digits>, assigners: nat, p: nat) {
    2 * |SupportersFromRight(votes, p)| >= assigners
  }

  /** At least half of the assigners set the bit with the index. */
  ghost predicate HalfSupport(votes: seq<Digits>, assigners: nat, i: nat) {
    2 * |Supporters(votes, i)| >= assigners
  }

  ghost function Voters(votes: seq<Digits>): set<nat> {
    set j: nat | j < |votes| && !IsZero(votes[j])
  }

  lemma {:induction false} VotersCounted(votes: seq<Digits>)
    ensures NonZero(votes) == |Voters(votes)|
  {
    if votes != [] {
      var rest := votes[1..];
      VotersCounted(rest);
      ShiftedSize(Voters(rest));
      forall j | j in Voters(votes) && j != 0 ensures j in Shifted(Voters(rest)) {
        assert votes[j] == rest[j - 1] && j - 1 in Voters(rest);
      }
      forall j | j in Shifted(Voters(rest)) ensures j in Voters(votes) && j != 0 {
        var i :| i in Voters(rest) && j == i + 1;
        assert votes[j] == rest[i];
      }
      if IsZero(votes[0]) {
        assert Voters(votes) == Shifted(Voters(rest));
      } else {
        assert Voters(votes) == {0} + Shifted(Voters(rest));
      }
    }
  }

  ghost function Shifted(s: set<nat>): set<nat> {
    set j | j in s :: j + 1
  }

  lemma {:induction false} ShiftedSize(s: set<nat>)
    ensures |Shifted(s)| == |s|
  {
    if s != {} {
      var j :| j in s;
      ShiftedSize(s - {j});
      forall x | x in Shifted(s) ensures x in Shifted(s - {j}) + {j + 1} {
        var i :| i in s && x == i + 1;
        assert i != j ==> i in s - {j};
      }
      assert Shifted(s) == Shifted(s - {j}) + {j + 1};
    }
  }

  lemma SharersVote(votes: seq<Digits>, p: nat)
    ensures |SupportersFromRight(votes, p)| <= |Voters(votes)|
  {
    forall j | j in SupportersFromRight(votes, p) ensures j in Voters(votes) {
      if IsZero(votes[j]) { ZeroBits(p % 4); }
    }
    SubsetSize(SupportersFromRight(votes, p), Voters(votes));
  }

  /** When fewer than half of the assigners cast a vote for anything, nothing is chosen. */
  lemma FewVotersChooseNothing(votes: seq<Digits>, env: Env, n: nat)
    requires env.assigners > 0 && 2 * |Voters(votes)| < env.assigners
    ensures ResultIndices(votes, env.MinVoters(), n) == []
  {
    VotersCounted(votes);
    NoIndicesInZeros(seq((n + 7) / 8, _ => 0), n);
  }

  ghost predicate IsZeroMask(bytes: seq<Byte>, n: nat) {
    |bytes| == (n + 7) / 8 && forall j :: 0 <= j < |bytes| ==> bytes[j] == 0
  }

  /** The result is the mask without bits exactly if no bit is shared by half of the assigners. */
  lemma ResultIff(votes: seq<Digits>, env: Env, n: nat)
    requires AllWellFormed(votes) && env.assigners > 0
    ensures var result := VotingResult(votes, env.MinVoters(), n);
            if exists p: nat :: HalfShare(votes, env.assigners, p) then result.Some? ==> SetFrom(result.value, 0) && !SetFrom(result.value, n)
            else result.Some? && IsZeroMask(result.value, n)
  {
    VotersCounted(votes);
    var k := env.MinVoters();
    if NonZero(votes) < k {
      forall p: nat ensures !HalfShare(votes, env.assigners, p) { SharersVote(votes, p); }
    } else {
      var m := ChosenMask(votes, k);
      AgreedIffShared(votes, k, m);
      if p: nat :| |SupportersFromRight(votes, p)| >= k { assert HalfShare(votes, env.assigners, p); }
      if p: nat :| HalfShare(votes, env.assigners, p) { assert |SupportersFromRight(votes, p)| >= k; }
      ChosenWellFormed(votes, k, m);
      MaskHasBits(m);
    }
  }

  lemma MaskHasBits(m: Digits)
    requires WellFormed(m)
    ensures SetFrom(MaskBytes(m), 0) <==> Ones(m) > 0
  {
    OnesMeanBits(m);
    if p: nat :| BitFromRight(m, p) {
      var i := 4 * |m| - 1 - p;
      IndexFromRight(m, i);
      MaskBytesBits(m, i);
    }
    if i: nat :| 0 <= i && IsSet(MaskBytes(m), i) {
      MaskBytesBits(m, i);
      IndexFromRight(m, i);
    }
  }

  // ---------- by index ----------

  lemma SameSupporters(votes: seq<Digits>, length: nat, i: nat)
    requires Uniform(votes, length) && i < 4 * length
    ensures Supporters(votes, i) == SupportersFromRight(votes, 4 * length - 1 - i)
  {
    var p := 4 * length - 1 - i;
    forall j: nat | j < |votes| ensures BitAtIndex(votes[j], i) <==> BitFromRight(votes[j], p) {
      var v := votes[j];
      assert v in votes;
      if |v| == length {
        IndexFromRight(v, i);
      } else {
        ZeroBits(p % 4);
        ZeroBits(3 - i % 4);
      }
    }
  }

  ghost predicate NoBitBeyond(votes: seq<Digits>, n: nat) {
    forall j, i: nat :: 0 <= j < |votes| && i >= n ==> !BitAtIndex(votes[j], i)
  }

  lemma BitWithinLength(votes: seq<Digits>, length: nat, i: nat)
    requires Uniform(votes, length) && Supporters(votes, i) != {}
    ensures i < 4 * length
  {
    var j :| j in Supporters(votes, i);
    assert votes[j] in votes;
    if |votes[j]| != length { ZeroBits(3 - i % 4); }
  }

  /** With votes of one length, an index is half supported exactly if its bit from the right is half shared. */
  lemma HalfByIndex(votes: seq<Digits>, length: nat, assigners: nat)
    requires Uniform(votes, length) && assigners > 0
    ensures (exists i: nat :: HalfSupport(votes, assigners, i)) <==> exists p: nat :: HalfShare(votes, assigners, p)
  {
    if i: nat :| HalfSupport(votes, assigners, i) {
      BitWithinLength(votes, length, i);
      SameSupporters(votes, length, i);
      assert HalfShare(votes, assigners, 4 * length - 1 - i);
    }
    if p: nat :| HalfShare(votes, assigners, p) {
      var j :| j in SupportersFromRight(votes, p);
      assert votes[j] in votes;
      BitMeansLength(votes[j], length, p);
      var i := 4 * length - 1 - p;
      SameSupporters(votes, length, i);
      assert HalfSupport(votes, assigners, i);
    }
  }

  /** Every chosen index is half supported. */
  lemma ChosenHalfSupported(votes: seq<Digits>, env: Env, n: nat, length: nat, i: nat)
    requires Uniform(votes, length) && env.assigners > 0 && i in ResultIndices(votes, env.MinVoters(), n)
    ensures HalfSupport(votes, env.assigners, i)
  {
    var k := env.MinVoters();
    ResultIsAgreed(votes, k, n);
    var m := ChosenMask(votes, k);
    assert AllWellFormed(votes);
    ChosenWellFormed(votes, k, m);
    MaskBytesBits(m, i);
    AgreedBitsSupported(votes, length, k, m, i);
  }

  /** With votes of one length and no bit beyond the requests, something is chosen exactly if an index is half supported. */
  lemma IndicesIff(votes: seq<Digits>, env: Env, n: nat, length: nat)
    requires Uniform(votes, length) && env.assigners > 0 && NoBitBeyond(votes, n)
    ensures ResultIndices(votes, env.MinVoters(), n) != [] <==> exists i: nat :: HalfSupport(votes, env.assigners, i)
  {
    assert AllWellFormed(votes);
    ResultIff(votes, env, n);
    HalfByIndex(votes, length, env.assigners);
    var result, indices := VotingResult(votes, env.MinVoters(), n), ResultIndices(votes, env.MinVoters(), n);
    if exists i: nat :: HalfSupport(votes, env.assigners, i) {
      ResultThere(votes, env, n, length);
      SetIndicesMeaning(result.value, n);
      var i: nat :| 0 <= i && IsSet(result.value, i);
      assert ListedIfSet(indices, result.value, i);
    } else {
      NoIndicesInZeros(result.value, n);
    }
  }

  /** The result cannot point beyond the requests if no vote does. */
  lemma ResultThere(votes: seq<Digits>, env: Env, n: nat, length: nat)
    requires Uniform(votes, length) && env.assigners > 0 && NoBitBeyond(votes, n)
    ensures VotingResult(votes, env.MinVoters(), n).Some?
  {
    var k := env.MinVoters();
    if NonZero(votes) >= k { ChosenWithin(votes, k, n, length, ChosenMask(votes, k)); }
  }

  lemma ChosenWithin(votes: seq<Digits>, k: nat, n: nat, length: nat, m: Digits)
    requires Uniform(votes, length) && k > 0 && NoBitBeyond(votes, n) && IsChosen(votes, k, m)
    ensures !SetFrom(MaskBytes(m), n)
  {
    assert AllWellFormed(votes);
    ChosenWellFormed(votes, k, m);
    forall i: nat | n <= i ensures !IsSet(MaskBytes(m), i) {
      MaskBytesBits(m, i);
      assert Supporters(votes, i) == {};
      if BitAtIndex(m, i) { AgreedBitsSupported(votes, length, k, m, i); }
    }
  }

  // ---------- runs ----------

  /** `s` got its result from the votes registered in `r`: none if a request wanted cannot be had. */
  ghost predicate GotResult(r: Round, s: Round, env: Env)
    requires env.assigners > 0
  {
    var votes := CollectVotes(r.bitVotes, r.defaultSet);
    var wanted := ResultIndices(votes, env.MinVoters(), |s.attestations|);
    s.countedVotes == votes && s.indices == if Unobtainable(s.attestations, wanted) then [] else wanted
  }

  lemma CalculateGets(r: Round, env: Env)
    requires env.assigners > 0
    ensures var s := TryCalculateBitVotingResults(r, env);
            s.status == r.status || (GotResult(r, s, env) && s.attestations == r.attestations)
  {}

  lemma PrepareGets(r: Round, env: Env, random: Hash)
    requires InRange(r)
    ensures var s := TryPrepareCommitData(r, env, random);
            && s.indices == r.indices && s.countedVotes == r.countedVotes && s.attestations == r.attestations
            && (r.status.Rank() < Chosen.Rank() ==> s.status == r.status)
  {}

  lemma CalculateAndPrepareGets(r: Round, env: Env, random: Hash)
    requires env.assigners > 0 && InRange(r) && r.status.Rank() < Chosen.Rank() <= CalculateAndPrepare(r, env, random).status.Rank()
    ensures GotResult(r, CalculateAndPrepare(r, env, random), env)
  {
    CalculatedInRange(r, env);
    CalculateGets(r, env);
    PrepareGets(TryCalculateBitVotingResults(r, env), env, random);
  }

  lemma LocalGets(r: Round, env: Env, e: Event)
    requires env.assigners > 0 && InRange(r) && (OnRequest(e) ==> Pending(r, e.index)) && (e.CloseVoting? || e.Processed?)
    requires r.status.Rank() < Chosen.Rank() <= Local(r, env, e).status.Rank()
    ensures GotResult(r, Local(r, env, e), env)
  {
    match e
    case Processed(_, i, status, hash, random) => CalculateAndPrepareGets(Counted(r, i, status, hash), env, random);
    case CloseVoting(_, random) => CalculateAndPrepareGets(r.(status := BitVotingClosed), env, random);
  }

  /** The callback gives round `id` its result. */
  ghost predicate GivesResult(c: Chain, e: Event, d: Chain, id: nat) {
    && (e.CloseVoting? || e.Processed?) && e.id == id && id in c.rounds && id in d.rounds
    && c.rounds[id].status.Rank() < Chosen.Rank() <= d.rounds[id].status.Rank()
  }

  /** All requests of the round were found valid. */
  ghost predicate AllFoundValid(r: Round) {
    forall i :: 0 <= i < |r.attestations| ==> r.attestations[i].status.Valid?
  }

  lemma RunGivesResult(env: Env, events: seq<Event>, states: seq<Chain>, k: nat, id: nat)
    requires Run(env, events, states) && k < |events| && GivesResult(states[k], events[k], states[k + 1], id)
    ensures GotResult(states[k].rounds[id], states[k + 1].rounds[id], env)
  {
    RunStep(env, events, states, k);
    LocalGets(states[k].rounds[id], env, events[k]);
  }

  /**
   In every run the result of a round, once all its requests are found valid, has an index exactly if the
   registered votes of at least half of the assigners have a bit at one index; and each index of a result
   is supported like that.  The votes are of one length and have no bit beyond the requests.
   */
  lemma RunsChooseIffHalf(env: Env, events: seq<Event>, states: seq<Chain>, k: nat, id: nat, length: nat)
    requires Run(env, events, states) && k < |events| && GivesResult(states[k], events[k], states[k + 1], id)
    requires var votes, s := RegisteredVotes(states[k].rounds[id]), states[k + 1].rounds[id];
             Uniform(votes, length) && NoBitBeyond(votes, |s.attestations|) && AllFoundValid(s)
    ensures var votes, s := RegisteredVotes(states[k].rounds[id]), states[k + 1].rounds[id];
            && (s.indices != [] <==> exists i: nat :: 2 * |Supporters(votes, i)| >= env.assigners)
            && forall i :: i in s.indices ==> 2 * |Supporters(votes, i)| >= env.assigners
  {
    RunGivesResult(env, events, states, k, id);
    var votes, s := RegisteredVotes(states[k].rounds[id]), states[k + 1].rounds[id];
    ResultWithin(votes, env.MinVoters(), |s.attestations|);
    var wanted := ResultIndices(votes, env.MinVoters(), |s.attestations|);
    assert !Unobtainable(s.attestations, wanted);
    IndicesIff(votes, env, |s.attestations|, length);
    assert forall i: nat :: HalfSupport(votes, env.assigners, i) <==> 2 * |Supporters(votes, i)| >= env.assigners;
    forall i | i in s.indices ensures 2 * |Supporters(votes, i)| >= env.assigners {
      ChosenHalfSupported(votes, env, |s.attestations|, length, i);
    }
  }

  /** In every run nothing is chosen when fewer than half of the assigners cast a vote for anything, whatever the votes look like. */
  lemma RunsNeedHalf(env: Env, events: seq<Event>, states: seq<Chain>, k: nat, id: nat)
    requires Run(env, events, states) && k < |events| && GivesResult(states[k], events[k], states[k + 1], id)
    requires 2 * |Voters(RegisteredVotes(states[k].rounds[id]))| < env.assigners
    ensures states[k + 1].rounds[id].indices == []
  {
    RunGivesResult(env, events, states, k, id);
    FewVotersChooseNothing(RegisteredVotes(states[k].rounds[id]), env, |states[k + 1].rounds[id].attestations|);
  }
}
