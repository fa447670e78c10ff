/**
 The check in `onAttestationProcessed` that ends the process - more requests processed than there
 are - never fires in runs in which a verdict is final; that it is follows in `RoundScheduling`.
 */
module RoundCompletion {
  import opened CommitReveal
  import opened Merkle
  import opened RoundState

  /** How many requests have their verdict. */
  function FinalCount(s: seq<Attestation>): (r: nat)
    ensures r <= |s|
  {
    if s == [] then 0 else FinalCount(s[..|s| - 1]) + if s[|s| - 1].status.Final() then 1 else 0
  }

  lemma {:induction false} FinalCountUpdate(s: seq<Attestation>, i: nat, a: Attestation)
    requires i < |s| && !s[i].status.Final()
    ensures FinalCount(s[i := a]) == FinalCount(s) + if a.status.Final() then 1 else 0
    decreases |s|
  {
    var t := s[i := a];
    if i == |s| - 1 {
      assert t[..|s| - 1] == s[..|s| - 1];
    } else {
      assert t[..|s| - 1] == s[..|s| - 1][i := a];
      FinalCountUpdate(s[..|s| - 1], i, a);
    }
  }

  ghost predicate CountsProcessed(r: Round) {
    r.attestationsProcessed == FinalCount(r.attestations)
  }

  lemma CalculateKeepsCount(r: Round, env: Env, random: Hash)
    requires env.assigners > 0 && InRange(r)
    ensures CalculateAndPrepare(r, env, random).attestations == r.attestations
    ensures CalculateAndPrepare(r, env, random).attestationsProcessed == r.attestationsProcessed
  {
    CalculatedInRange(r, env);
    CalculatedChanges(r, env);
    PrepareKeepsCount(TryCalculateBitVotingResults(r, env), env, random);
  }

  lemma PrepareKeepsCount(r: Round, env: Env, random: Hash)
    requires InRange(r)
    ensures TryPrepareCommitData(r, env, random).attestations == r.attestations
    ensures TryPrepareCommitData(r, env, random).attestationsProcessed == r.attestationsProcessed
  {}

  lemma LocalCounts(r: Round, env: Env, e: Event)
    requires env.assigners > 0 && InRange(r) && CountsProcessed(r)
    requires OnRequest(e) ==> Pending(r, e.index)
    requires e.Processed? ==> e.status.Final()
    ensures CountsProcessed(Local(r, env, e))
  {
    match e
    case Add(_) =>
      assert AddAttestation(r).attestations[..|r.attestations|] == r.attestations;
    case Enqueue(_, i) => FinalCountUpdate(r.attestations, i, r.attestations[i].(status := Queued));
    case Start(_, i) => FinalCountUpdate(r.attestations, i, r.attestations[i].(status := Processing));
    case Processed(_, i, status, hash, random) =>
      FinalCountUpdate(r.attestations, i, Attestation(status, hash));
      CalculateKeepsCount(Counted(r, i, status, hash), env, random);
    case CloseVoting(_, random) =>
      if r.status.Rank() < BitVotingClosed.Rank() {
        CalculateKeepsCount(r.(status := BitVotingClosed), env, random);
      }
    case CommitPhaseStart(_, random) => PrepareKeepsCount(r.(phase := Commit), env, random);
    case _ =>
  }

  lemma StepCounts(c: Chain, env: Env, e: Event)
    requires env.assigners > 0 && AllInRange(c) && Enabled(c, e)
    requires forall id :: id in c.rounds ==> CountsProcessed(c.rounds[id])
    ensures forall id :: id in Apply(c, env, e).rounds ==> CountsProcessed(Apply(c, env, e).rounds[id])
  {
    match e
    case Create(_, _) =>
    case FirstCommit(_, _, _, _, _) =>
    case Submit(id, random, receipt) =>
      SubmitKeepsCounts(c, env, id, random, receipt);
    case _ => LocalCounts(c.rounds[e.id], env, e);
  }

  lemma SubmitKeepsCounts(c: Chain, env: Env, id: nat, random: Hash, receipt: bool)
    requires id in c.rounds && forall i :: i in c.rounds ==> CountsProcessed(c.rounds[i])
    ensures forall i :: i in OnSubmit(c, env, id, random, receipt).rounds ==> CountsProcessed(OnSubmit(c, env, id, random, receipt).rounds[i])
  {}

  /** In every run and for every round, the count of processed requests is the number of those with a verdict. */
  lemma {:induction false} RunsCountProcessed(env: Env, events: seq<Event>, states: seq<Chain>, k: nat)
    requires Run(env, events, states) && k < |states|
    ensures forall id :: id in states[k].rounds ==> CountsProcessed(states[k].rounds[id])
    decreases k
  {
    if k > 0 {
      RunsCountProcessed(env, events, states, k - 1);
      RunStep(env, events, states, k - 1);
      StepCounts(states[k - 1], env, events[k - 1]);
    }
  }

  /** So the exit is not taken: whenever a verdict comes in, one more may be counted. */
  lemma ProcessedNeverExceeds(env: Env, events: seq<Event>, states: seq<Chain>, k: nat)
    requires Run(env, events, states) && k < |events| && events[k].Processed?
    ensures var e := events[k];
            && e.id in states[k].rounds
            && states[k].rounds[e.id].attestationsProcessed < |states[k].rounds[e.id].attestations|
  {
    var e := events[k];
    RunStep(env, events, states, k);
    RunsCountProcessed(env, events, states, k);
    var r := states[k].rounds[e.id];
    assert CountsProcessed(r);
    FinalCountUpdate(r.attestations, e.index, Attestation(e.status, e.hash));
  }
}
