/** What every callback of a round keeps, and what the prepared commit data therefore consists of. */
module RoundInvariant {
  import opened Bitmask
  import opened Hex
  import opened Merkle
  import opened RoundState
  import opened Sorting
  import opened Subsets
  import opened VoteAgreement
  import opened VoteChoice
  import opened Wrappers

  ghost predicate BitsOfMask(indices: seq<nat>, votes: seq<Digits>, minVoters: nat)
    requires 0 < minVoters <= |votes|
  {
    forall i: nat :: i in indices <==> IsSet(MaskBytes(ChosenMask(votes, minVoters)), i)
  }

  ghost predicate AllAreValid(attestations: seq<Attestation>, indices: seq<nat>) {
    forall i :: i in indices ==> i < |attestations| && attestations[i].status.Valid?
  }

  /** The chosen indices are the bits of the mask agreed in the counted votes, and all those requests are valid. */
  ghost predicate Agreed(r: Round, env: Env) {
    && Within(r.indices, |r.attestations|)
    && AllAreValid(r.attestations, r.indices)
    && (r.indices != [] ==>
          && 0 < env.MinVoters() <= |r.countedVotes|
          && BitsOfMask(r.indices, r.countedVotes, env.MinVoters()))
  }

  ghost predicate Prepared(r: Round, env: Env) {
    && (r.root.Some? <==> r.random.Some?) && (r.root.Some? <==> r.masked.Some?)
    && (r.status.CommitDataPrepared? || r.status.Committed? ==> r.root.Some?)
    && (r.root.Some? ==> r.status.Rank() >= CommitDataPrepared.Rank())
    && (r.isEmpty ==> r.root == Some(ZERO_HASH) && r.random == Some(ZERO_HASH))
    && (r.root.Some? && !r.isEmpty ==>
          && r.tree != [] && r.root.value == r.tree[0]
          && r.masked.value == env.commitHash(r.root.value, r.random.value))
  }

  ghost predicate TreeAgreed(r: Round, env: Env) {
    r.tree != [] ==>
      && r.indices != []
      && r.root.Some?
      && Within(r.indices, |r.attestations|)
      && r.tree == TreeOf(env.pairHash, HashesAt(r.attestations, r.indices))
  }

  ghost predicate RoundInv(r: Round, env: Env) {
    && Agreed(r, env) && Prepared(r, env) && TreeAgreed(r, env)
    && !r.isReject
    && (r.status.Rank() < Chosen.Rank() ==> r.indices == [])
  }

  /** What is agreed depends on the requests, the indices and the counted votes only. */
  lemma AgreedFrame(r: Round, s: Round, env: Env)
    requires Agreed(r, env)
    requires s.indices == r.indices && s.attestations == r.attestations && s.countedVotes == r.countedVotes
    ensures Agreed(s, env)
  {}

  // ---------- the steps ----------

  lemma ResultIsAgreed(votes: seq<Digits>, minVoters: nat, n: nat)
    requires minVoters > 0 && ResultIndices(votes, minVoters, n) != []
    ensures minVoters <= |votes|
    ensures forall i: nat :: i in ResultIndices(votes, minVoters, n) <==> IsSet(MaskBytes(ChosenMask(votes, minVoters)), i)
  {
    var bytes := VotingResult(votes, minVoters, n).value;
    NoIndicesInZeros(bytes, n);
    SetIndicesMeaning(bytes, n);
    assert bytes == MaskBytes(ChosenMask(votes, minVoters)) && !SetFrom(bytes, n);
    var indices := SetIndices(bytes, n);
    forall i: nat ensures i in indices <==> IsSet(bytes, i) {
      if i < n {
        assert ListedIfSet(indices, bytes, i);
      } else if IsSet(bytes, i) {
        assert SetFrom(bytes, n);
      }
    }
  }

  lemma {:induction false} NoIndicesInZeros(bytes: seq<Byte>, n: nat)
    ensures (forall j :: 0 <= j < |bytes| ==> bytes[j] == 0) ==> SetIndices(bytes, n) == []
  {
    if n > 0 {
      ZeroBits(7 - (n - 1) % 8);
      NoIndicesInZeros(bytes, n - 1);
    }
  }

  lemma TryCalculateKeeps(r: Round, env: Env)
    requires env.assigners > 0 && RoundInv(r, env)
    ensures RoundInv(TryCalculateBitVotingResults(r, env), env)
  {
    var s := TryCalculateBitVotingResults(r, env);
    if s != r {
      CalculatedInRange(r, env);
      var votes := CollectVotes(r.bitVotes, r.defaultSet);
      if s.indices != [] {
        ResultIsAgreed(votes, env.MinVoters(), |r.attestations|);
      }
    }
  }

  /** Commit data is prepared, never refused: the branches that wait or reject are not reachable from `Chosen`. */
  lemma ChosenPrepares(r: Round, env: Env, random: Hash)
    requires RoundInv(r, env) && r.status == Chosen && r.phase == Commit
    ensures TryPrepareCommitData(r, env, random).status == CommitDataPrepared
    ensures !TryPrepareCommitData(r, env, random).isReject
  {}

  lemma TryPrepareKeeps(r: Round, env: Env, random: Hash)
    requires RoundInv(r, env)
    ensures RoundInv(TryPrepareCommitData(r, env, random), env)
  {
    var s := TryPrepareCommitData(r, env, random);
    PrepareOutcome(r, env, random);
    if s == AbstainVoteRound(r, env, random) {
      AbstainKeeps(r, env, random);
    } else if s != r {
      CommitToKeeps(r, env, random);
    }
  }

  /** Nothing is rejected: a round that has its result and prepares abstains or commits to its tree. */
  lemma PrepareOutcome(r: Round, env: Env, random: Hash)
    requires Agreed(r, env) && !r.isReject
    ensures var s := TryPrepareCommitData(r, env, random);
            || s == r || s == AbstainVoteRound(r, env, random)
            || (r.indices != [] && TreeOf(env.pairHash, HashesAt(r.attestations, r.indices)) != []
                && s == CommitTo(r, env, TreeOf(env.pairHash, HashesAt(r.attestations, r.indices)), random))
  {
    TreeOfMeaning(env.pairHash, HashesAt(r.attestations, r.indices));
  }

  lemma AbstainKeeps(r: Round, env: Env, random: Hash)
    requires RoundInv(r, env)
    ensures RoundInv(AbstainVoteRound(r, env, random), env)
  {
    AgreedFrame(r, AbstainVoteRound(r, env, random), env);
  }

  lemma CommitToKeeps(r: Round, env: Env, random: Hash)
    requires RoundInv(r, env) && r.indices != [] && !r.isEmpty && TreeOf(env.pairHash, HashesAt(r.attestations, r.indices)) != []
    ensures RoundInv(CommitTo(r, env, TreeOf(env.pairHash, HashesAt(r.attestations, r.indices)), random), env)
  {
    AgreedFrame(r, CommitTo(r, env, TreeOf(env.pairHash, HashesAt(r.attestations, r.indices)), random), env);
  }

  lemma AddAttestationKeeps(r: Round, env: Env)
    requires RoundInv(r, env)
    ensures RoundInv(AddAttestation(r), env)
  {
    var s := AddAttestation(r);
    assert HashesAt(s.attestations, s.indices) == HashesAt(r.attestations, r.indices);
  }

  lemma AgreedWithoutChanged(r: Round, env: Env, i: nat, a: Attestation)
    requires Agreed(r, env) && i < |r.attestations| && !r.attestations[i].status.Final()
    ensures Agreed(r.(attestations := r.attestations[i := a]), env)
    ensures forall j :: 0 <= j < |r.indices| ==> r.indices[j] != i
  {
    forall j | 0 <= j < |r.indices| ensures r.indices[j] != i {
      assert r.indices[j] in r.indices;
    }
  }

  lemma StatusChangeKeeps(r: Round, env: Env, i: nat, a: Attestation)
    requires RoundInv(r, env) && i < |r.attestations| && !r.attestations[i].status.Final()
    ensures RoundInv(r.(attestations := r.attestations[i := a]), env)
  {
    var s := r.(attestations := r.attestations[i := a]);
    AgreedWithoutChanged(r, env, i, a);
    assert HashesAt(s.attestations, s.indices) == HashesAt(r.attestations, r.indices);
  }

  lemma ProcessedKeeps(r: Round, env: Env, i: nat, status: AttestationStatus, hash: Hash, random: Hash)
    requires env.assigners > 0 && RoundInv(r, env)
    requires i < |r.attestations| && !r.attestations[i].status.Final()
    ensures RoundInv(OnAttestationProcessed(r, env, i, status, hash, random), env)
  {
    var counted := Counted(r, i, status, hash);
    CountedKeeps(r, env, i, status, hash);
    if counted.attestationsProcessed <= |counted.attestations| {
      CalculateAndPrepareKeeps(counted, env, random);
    } else {
      TerminationKeeps(counted, env);
    }
  }

  lemma CountedKeeps(r: Round, env: Env, i: nat, status: AttestationStatus, hash: Hash)
    requires RoundInv(r, env) && i < |r.attestations| && !r.attestations[i].status.Final()
    ensures RoundInv(Counted(r, i, status, hash), env)
  {
    StatusChangeKeeps(r, env, i, Attestation(status, hash));
    CountKeeps(r.(attestations := r.attestations[i := Attestation(status, hash)]), env, r.attestationsProcessed + 1);
  }

  lemma CountKeeps(r: Round, env: Env, processed: nat)
    requires RoundInv(r, env)
    ensures RoundInv(r.(attestationsProcessed := processed), env)
  {}

  lemma TerminationKeeps(r: Round, env: Env)
    requires RoundInv(r, env)
    ensures RoundInv(r.(terminated := true), env)
  {}

  lemma CalculateAndPrepareKeeps(r: Round, env: Env, random: Hash)
    requires env.assigners > 0 && RoundInv(r, env)
    ensures RoundInv(CalculateAndPrepare(r, env, random), env)
  {
    CalculatedInRange(r, env);
    TryCalculateKeeps(r, env);
    TryPrepareKeeps(TryCalculateBitVotingResults(r, env), env, random);
  }

  lemma CloseBitVotingKeeps(r: Round, env: Env, random: Hash)
    requires env.assigners > 0 && RoundInv(r, env)
    ensures RoundInv(CloseBitVoting(r, env, random), env)
  {
    if r.status.Rank() < BitVotingClosed.Rank() {
      CalculateAndPrepareKeeps(r.(status := BitVotingClosed), env, random);
    }
  }

  // ---------- what is committed ----------

  /** Bit `i` of the bytes a chosen mask is read back as is its bit at index `i`. */
  lemma MaskBytesBits(m: Digits, i: nat)
    requires WellFormed(m)
    ensures IsSet(MaskBytes(m), i) <==> BitAtIndex(m, i)
  {
    if m == [0] {
      ZeroBits(7 - i % 8);
      ZeroBits(3 - i % 4);
    } else if i / 8 < |m| / 2 {
      BytePosition(i);
      ByteBit(m[2 * (i / 8)], m[2 * (i / 8) + 1], i);
      assert MaskBytes(m)[i / 8] == ByteOf(m[2 * (i / 8)], m[2 * (i / 8) + 1]);
    } else {
      BytePosition(i);
    }
  }

  lemma BytePosition(i: nat)
    ensures i / 4 == 2 * (i / 8) + if i % 8 < 4 then 0 else 1
  {}

  lemma ByteBit(hi: Nibble, lo: Nibble, i: nat)
    ensures Bit(ByteOf(hi, lo), 7 - i % 8) <==> Bit(if i % 8 < 4 then hi else lo, 3 - i % 4)
  {
    NibbleBits(hi, lo, 7 - i % 8);
    assert i % 4 == if i % 8 < 4 then i % 8 else i % 8 - 4;
  }

  lemma NibbleBits(hi: Nibble, lo: Nibble, s: nat)
    requires s < 8
    ensures Bit(ByteOf(hi, lo), s) <==> if s < 4 then Bit(lo, s) else Bit(hi, s - 4)
  {
    var n := ByteOf(hi, lo);
    assert n / 2 == ByteOf(0, lo) / 2 + 8 * hi;
    assert n / 2 / 2 == lo / 2 / 2 + 4 * hi;
    assert n / 2 / 2 / 2 == lo / 2 / 2 / 2 + 2 * hi;
    assert n / 2 / 2 / 2 / 2 == hi;
    assert s >= 1 ==> Bit(n, s) == Bit(n / 2, s - 1);
    assert s >= 2 ==> Bit(n, s) == Bit(n / 2 / 2, s - 2);
    assert s >= 3 ==> Bit(n, s) == Bit(n / 2 / 2 / 2, s - 3);
    assert s >= 4 ==> Bit(n, s) == Bit(n / 2 / 2 / 2 / 2, s - 4);
    assert s >= 1 ==> Bit(lo, s) == Bit(lo / 2, s - 1);
    assert s >= 2 ==> Bit(lo, s) == Bit(lo / 2 / 2, s - 2);
    assert s >= 3 ==> Bit(lo, s) == Bit(lo / 2 / 2 / 2, s - 3);
  }

  /**
   Only agreed, validated leaves.  In any state the callbacks lead to, the leaves of a prepared tree
   are exactly the hashes of the requests at the chosen indices, each of those requests is valid,
   and each index has its bit set in the counted votes of at least half of the assigners when these
   are of one length.
   */
  lemma OnlyAgreedLeaves(r: Round, env: Env, length: nat)
    requires RoundInv(r, env) && r.tree != [] && Uniform(r.countedVotes, length)
    ensures Elements(Leaves(r.tree)) == set i | i in r.indices && i < |r.attestations| :: r.attestations[i].hash
    ensures forall i :: i in r.indices ==> i < |r.attestations| && r.attestations[i].status.Valid?
    ensures forall i :: i in r.indices ==> 2 * |Supporters(r.countedVotes, i)| >= env.assigners
  {
    TreeOfMeaning(env.pairHash, HashesAt(r.attestations, r.indices));
    HashesOfIndices(r.attestations, r.indices);
    var m := ChosenMask(r.countedVotes, env.MinVoters());
    forall i | i in r.indices ensures 2 * |Supporters(r.countedVotes, i)| >= env.assigners {
      ChosenWellFormed(r.countedVotes, env.MinVoters(), m);
      MaskBytesBits(m, i);
      AgreedBitsSupported(r.countedVotes, length, env.MinVoters(), m, i);
    }
  }

  lemma HashesOfIndices(attestations: seq<Attestation>, indices: seq<nat>)
    requires Within(indices, |attestations|)
    ensures Elements(HashesAt(attestations, indices)) == set i | i in indices && i < |attestations| :: attestations[i].hash
  {
    var hashes := HashesAt(attestations, indices);
    var atIndices := set i | i in indices && i < |attestations| :: attestations[i].hash;
    forall x ensures x in Elements(hashes) <==> x in atIndices {
      if x in Elements(hashes) {
        var j :| 0 <= j < |hashes| && hashes[j] == x;
        assert indices[j] in indices;
      }
      if x in atIndices {
        var i :| i in indices && i < |attestations| && attestations[i].hash == x;
        var j :| 0 <= j < |indices| && indices[j] == i;
        assert hashes[j] == x;
      }
    }
  }

  lemma ChosenWellFormed(votes: seq<Digits>, k: nat, m: Digits)
    requires AllWellFormed(votes) && IsChosen(votes, k, m)
    ensures WellFormed(m)
  {
    var sel: seq<nat> :| Group(votes, k, sel) && Intersection(votes, sel) == m;
    IntersectAllMeaning(Pick(votes, sel), 0);
  }
}
