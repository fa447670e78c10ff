/** What a tree that a run of linked rounds commits consists of, down to the votes that were registered. */
module AgreedLeaves {
  import opened CommitReveal
  import opened Hex
  import opened Merkle
  import opened RoundInvariant
  import opened RoundState
  import opened VoteAgreement
  import opened Wrappers

  // ---------- the votes that are counted ----------

  function RegisteredVotes(r: Round): seq<Digits> {
    CollectVotes(r.bitVotes, r.defaultSet)
  }

  /** `s` is chosen and `r` is not yet, and what was counted in between are the votes registered in `r`. */
  ghost predicate BecomesChosen(r: Round, s: Round) {
    && r.status.Rank() < Chosen.Rank() <= s.status.Rank()
    && s.countedVotes == RegisteredVotes(r) && RegisteredVotes(s) == RegisteredVotes(r)
  }

  lemma CalculateCounts(r: Round, env: Env)
    requires env.assigners > 0
    ensures var s := TryCalculateBitVotingResults(r, env);
            && (s.countedVotes == r.countedVotes || BecomesChosen(r, s))
            && RegisteredVotes(s) == RegisteredVotes(r) && s.status.Rank() >= r.status.Rank()
  {
    CalculatedChanges(r, env);
  }

  lemma PrepareCounts(r: Round, env: Env, random: Hash)
    requires InRange(r)
    ensures var s := TryPrepareCommitData(r, env, random);
            s.countedVotes == r.countedVotes && RegisteredVotes(s) == RegisteredVotes(r) && s.status.Rank() >= r.status.Rank()
  {}

  lemma CalculateAndPrepareCounts(r: Round, env: Env, random: Hash)
    requires env.assigners > 0 && InRange(r)
    ensures var s := CalculateAndPrepare(r, env, random); s.countedVotes == r.countedVotes || BecomesChosen(r, s)
  {
    CalculatedInRange(r, env);
    CalculateCounts(r, env);
    PrepareCounts(TryCalculateBitVotingResults(r, env), env, random);
  }

  lemma LocalCounts(r: Round, env: Env, e: Event)
    requires env.assigners > 0 && InRange(r) && (OnRequest(e) ==> Pending(r, e.index))
    ensures Local(r, env, e).countedVotes == r.countedVotes || BecomesChosen(r, Local(r, env, e))
  {
    match e
    case Processed(_, i, status, hash, random) =>
      CalculateAndPrepareCounts(Counted(r, i, status, hash), env, random);
    case CloseVoting(_, random) =>
      if r.status.Rank() < BitVotingClosed.Rank() {
        CalculateAndPrepareCounts(r.(status := BitVotingClosed), env, random);
      }
    case CommitPhaseStart(_, random) => PrepareCounts(r.(phase := Commit), env, random);
    case _ =>
  }

  lemma StepCounts(c: Chain, env: Env, e: Event, id: nat)
    requires env.assigners > 0 && AllInRange(c) && Enabled(c, e) && id in c.rounds
    ensures id in Apply(c, env, e).rounds
    ensures var r, s := c.rounds[id], Apply(c, env, e).rounds[id]; s.countedVotes == r.countedVotes || BecomesChosen(r, s)
  {
    match e
    case Create(_, _) =>
    case FirstCommit(_, _, _, _, _) =>
    case Submit(id0, random, receipt) => SubmitKeepsResult(c, env, id0, random, receipt, id);
    case _ => LocalCounts(c.rounds[e.id], env, e);
  }

  /** The step from state `p` on chose the result of the round, from the votes registered then. */
  ghost predicate ChosenInStep(states: seq<Chain>, id: nat, p: nat) {
    && p + 1 < |states| && id in states[p].rounds && id in states[p + 1].rounds
    && BecomesChosen(states[p].rounds[id], states[p + 1].rounds[id])
  }

  /** In every run the votes a round has counted are those registered when it became chosen. */
  lemma {:induction false} CountedAreRegistered(env: Env, events: seq<Event>, states: seq<Chain>, k: nat, id: nat)
    requires Run(env, events, states) && k < |states| && id in states[k].rounds && states[k].rounds[id].countedVotes != []
    ensures exists p: nat :: p < k && ChosenInStep(states, id, p) && states[k].rounds[id].countedVotes == RegisteredVotes(states[p].rounds[id])
    decreases k
  {
    if k > 0 {
      RunStep(env, events, states, k - 1);
      if id in states[k - 1].rounds {
        StepCounts(states[k - 1], env, events[k - 1], id);
        if states[k].rounds[id].countedVotes == states[k - 1].rounds[id].countedVotes {
          CountedAreRegistered(env, events, states, k - 1, id);
        } else {
          assert ChosenInStep(states, id, k - 1);
        }
      }
    }
  }

  // ---------- the promise ----------

  /** The leaves are the hashes at the chosen indices, all of these valid, and each with enough of the votes. */
  ghost predicate LeavesAgreed(r: Round, votes: seq<Digits>, env: Env) {
    && r.tree != []
    && (set x | x in Leaves(r.tree)) == (set i | i in r.indices && i < |r.attestations| :: r.attestations[i].hash)
    && (!r.isEmpty ==> r.root == Some(r.tree[0]))
    && forall i :: i in r.indices ==>
         i < |r.attestations| && r.attestations[i].status.Valid? && 2 * |Supporters(votes, i)| >= env.assigners
  }

  lemma LeavesOfCounted(c: Chain, env: Env, id: nat, length: nat)
    requires ChainInv(c, env) && id in c.rounds && c.rounds[id].tree != [] && Uniform(c.rounds[id].countedVotes, length)
    ensures c.rounds[id].countedVotes != [] && LeavesAgreed(c.rounds[id], c.rounds[id].countedVotes, env)
  {
    assert RoundOk(c, env, id);
    OnlyAgreedLeaves(c.rounds[id], env, length);
  }

  /**
   In every run the leaves of a committed tree are the hashes of the validated requests at the chosen
   indices and nothing else, and when the round became chosen the registered votes of at least half of
   the assigners had the bit of each index.
   */
  lemma RunsCommitAgreedLeaves(env: Env, events: seq<Event>, states: seq<Chain>, k: nat, id: nat, length: nat)
    requires Run(env, events, states) && k < |states| && id in states[k].rounds
    requires states[k].rounds[id].tree != [] && Uniform(states[k].rounds[id].countedVotes, length)
    ensures exists p: nat :: p < k && ChosenInStep(states, id, p) && LeavesAgreed(states[k].rounds[id], RegisteredVotes(states[p].rounds[id]), env)
  {
    RunKeeps(env, events, states, k);
    LeavesOfCounted(states[k], env, id, length);
    CountedAreRegistered(env, events, states, k, id);
  }
}
