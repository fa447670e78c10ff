/** When a run of linked rounds submits, and what: in the fields of the rounds as they are before and after. */
module Submissions {
  import opened CommitReveal
  import opened Merkle
  import opened RoundState
  import opened Wrappers

  /** There is a round linked in front of `id`, and it is empty. */
  ghost predicate EmptyBefore(c: Chain, id: nat) {
    id in c.linked && id > 0 && id - 1 in c.rounds && c.rounds[id - 1].isEmpty
  }

  ghost predicate LinkedAfter(c: Chain, id: nat) {
    id + 1 in c.linked && id + 1 in c.rounds
  }

  /** The round and its neighbours on both sides are there, and all three have nothing to show. */
  ghost predicate AllThreeEmpty(c: Chain, id: nat)
    requires id in c.rounds
  {
    EmptyBefore(c, id) && LinkedAfter(c, id) && c.rounds[id].isEmpty && c.rounds[id + 1].isEmpty
  }

  ghost predicate IsReadyToCommit(r: Round) {
    r.phase == Commit && r.status == CommitDataPrepared
  }

  /** The round abstains: it commits zeros under a mask that they do not open. */
  ghost predicate Abstained(r: Round, env: Env, random: Hash) {
    r.isEmpty && r.root == Some(ZERO_HASH) && r.random == Some(ZERO_HASH) && r.masked == Some(env.commitHash(ZERO_HASH, random))
  }

  /** What a submission commits: the next round as it is left, or zeros if there is none. */
  ghost predicate Commits(made: Submission, next: Option<Round>) {
    match next
    case Some(n) => made.hasRound && made.root == n.root && made.masked == n.masked && made.random == n.random && made.abstains == n.isEmpty
    case None => !made.hasRound && !made.abstains && made.root == made.masked == made.random == Some(ZERO_HASH)
  }

  /** What a submission reveals: the round if it was prepared or committed, and zeros otherwise. */
  ghost predicate Reveals(made: Submission, r: Round) {
    if r.status in {CommitDataPrepared, Committed} then made.revealRoot == r.root && made.revealRandom == r.random
    else made.revealRoot == made.revealRandom == Some(ZERO_HASH)
  }

  /** The next round, before and after: as it was if it can be committed, and abstaining otherwise. */
  ghost predicate MadeReady(n: Round, m: Round, env: Env, random: Hash) {
    && m.phase == n.phase && m.indices == n.indices && m.attestations == n.attestations && m.bitVotes == n.bitVotes
    && if IsReadyToCommit(n) then m == n.(status := m.status) else Abstained(m, env, random)
  }

  lemma SkipsIff(id: nat, r: Round, previousIsEmpty: bool, next: Option<Round>, env: Env, random: Hash, receipt: bool)
    requires r.phase == InReveal && (next.Some? ==> !next.value.isReject)
    ensures var s := SubmitRound(id, r, previousIsEmpty, next, env, random, receipt);
            && (s.next.Some? <==> next.Some?)
            && (s.made.None? <==> previousIsEmpty && s.round.isEmpty && s.next.Some? && s.next.value.isEmpty)
            && s.round == r.(status := if s.made.None? || receipt then Revealed else RoundStatus.Failed)
            && (next.Some? ==> MadeReady(next.value, s.next.value, env, random)
                               && s.next.value.status == if s.made.Some? && receipt then Committed else CommitDataPrepared)
  {}

  lemma MadeOf(id: nat, r: Round, previousIsEmpty: bool, next: Option<Round>, env: Env, random: Hash, receipt: bool)
    requires r.phase == InReveal
    ensures var s := SubmitRound(id, r, previousIsEmpty, next, env, random, receipt);
            s.made.Some? ==> s.made.value.bufferNumber == id + 2 && Commits(s.made.value, s.next) && Reveals(s.made.value, r)
  {}

  ghost function NextOf(c: Chain, id: nat): Option<Round> {
    if LinkedAfter(c, id) then Some(c.rounds[id + 1]) else None
  }

  lemma SubmitIs(c: Chain, env: Env, id: nat, random: Hash, receipt: bool) returns (s: Submitted)
    requires id in c.rounds
    ensures s == SubmitRound(id, c.rounds[id], EmptyBefore(c, id), NextOf(c, id), env, random, receipt)
    ensures var d := OnSubmit(c, env, id, random, receipt);
            && (s.next.Some? <==> LinkedAfter(c, id))
            && id in d.rounds && d.rounds[id] == s.round && d.log == c.log + (if s.made.Some? then [s.made.value] else [])
            && (s.next.Some? ==> id + 1 in d.rounds && d.rounds[id + 1] == s.next.value)
            && d.linked == c.linked && d.submitted == c.submitted + {id} && d.firstCommitted == c.firstCommitted
            && d.rounds.Keys == c.rounds.Keys
            && forall j :: j in c.rounds && j != id && (j != id + 1 || !LinkedAfter(c, id)) ==> d.rounds[j] == c.rounds[j]
  {
    s := SubmitRound(id, c.rounds[id], EmptyBefore(c, id), NextOf(c, id), env, random, receipt);
  }

  lemma NextNotRejected(c: Chain, env: Env, id: nat)
    requires ChainInv(c, env)
    ensures NextOf(c, id).Some? ==> !NextOf(c, id).value.isReject
  {
    if id + 1 in c.rounds { assert RoundOk(c, env, id + 1); }
  }

  /** A revealing round `id` submits, or skips it: before and after. */
  ghost predicate SubmitTurn(c: Chain, d: Chain, env: Env, id: nat, random: Hash, receipt: bool) {
    && id in c.rounds && id in d.rounds && c.log <= d.log && |d.log| <= |c.log| + 1
    && (d.log == c.log <==> AllThreeEmpty(d, id))
    && d.rounds[id] == c.rounds[id].(status := if d.log == c.log || receipt then Revealed else RoundStatus.Failed)
    && (LinkedAfter(c, id) ==>
          && LinkedAfter(d, id) && MadeReady(c.rounds[id + 1], d.rounds[id + 1], env, random)
          && d.rounds[id + 1].status == if d.log != c.log && receipt then Committed else CommitDataPrepared)
    && OthersKept(c, d, id)
  }

  ghost predicate OthersKept(c: Chain, d: Chain, id: nat) {
    forall j :: j in c.rounds && j != id && (j != id + 1 || !LinkedAfter(c, id)) ==> j in d.rounds && d.rounds[j] == c.rounds[j]
  }

  lemma SubmitIsTurn(c: Chain, env: Env, id: nat, random: Hash, receipt: bool, d: Chain)
    requires id in c.rounds && c.rounds[id].phase == InReveal && ChainInv(c, env) && d == OnSubmit(c, env, id, random, receipt)
    ensures SubmitTurn(c, d, env, id, random, receipt)
  {
    var s := SubmitIs(c, env, id, random, receipt);
    NextNotRejected(c, env, id);
    SkipsIff(id, c.rounds[id], EmptyBefore(c, id), NextOf(c, id), env, random, receipt);
  }

  /**
   In every run a round that is revealed makes no submission exactly if it has neighbours on both sides
   and, once the next one has been made ready, all three are empty.  It is revealed unless the
   submission goes wrong; the next round is committed exactly if one is made and goes through, and it
   abstains if it has nothing prepared.
   */
  lemma SubmitSkipsIff(env: Env, events: seq<Event>, states: seq<Chain>, k: nat)
    requires Run(env, events, states) && k < |events| && events[k].Submit?
    requires events[k].id in states[k].rounds && states[k].rounds[events[k].id].phase == InReveal
    ensures SubmitTurn(states[k], states[k + 1], env, events[k].id, events[k].random, events[k].receipt)
    ensures states[k + 1].log == states[k].log <==> AllThreeEmpty(states[k + 1], events[k].id)
  {
    RunStep(env, events, states, k);
    SubmitIsTurn(states[k], env, events[k].id, events[k].random, events[k].receipt, states[k + 1]);
  }

  /** Outside its reveal phase a round submits nothing and changes nothing. */
  lemma NoSubmitBeforeReveal(env: Env, events: seq<Event>, states: seq<Chain>, k: nat)
    requires Run(env, events, states) && k < |events| && events[k].Submit?
    requires events[k].id in states[k].rounds && states[k].rounds[events[k].id].phase != InReveal
    ensures states[k + 1].log == states[k].log && states[k + 1].rounds == states[k].rounds
  {
    RunStep(env, events, states, k);
    var c, e := states[k], events[k];
    var s := SubmitIs(c, env, e.id, e.random, e.receipt);
  }

  /** In every run a submission goes to the buffer two after the round; it commits the next round as that is left, and reveals this one as it was. */
  lemma SubmissionSends(env: Env, events: seq<Event>, states: seq<Chain>, k: nat)
    requires Run(env, events, states) && k < |events| && events[k].Submit? && |states[k + 1].log| > |states[k].log|
    ensures var c, d, e := states[k], states[k + 1], events[k];
            var made := d.log[|c.log|];
            && d.log == c.log + [made] && e.id in c.rounds && made.bufferNumber == e.id + 2
            && Reveals(made, c.rounds[e.id])
            && Commits(made, NextOf(d, e.id)) && (LinkedAfter(c, e.id) <==> LinkedAfter(d, e.id))
  {
    RunStep(env, events, states, k);
    var c, e := states[k], events[k];
    var s := SubmitIs(c, env, e.id, e.random, e.receipt);
    MadeOf(e.id, c.rounds[e.id], EmptyBefore(c, e.id), NextOf(c, e.id), env, e.random, e.receipt);
  }

  lemma PreparedSent(c: Chain, d: Chain, env: Env, id: nat, random: Hash, receipt: bool)
    requires SubmitTurn(c, d, env, id, random, receipt) && LinkedAfter(c, id) && IsReadyToCommit(c.rounds[id + 1]) && !c.rounds[id + 1].isEmpty
    requires |d.log| > |c.log| ==> d.log[|c.log|].bufferNumber == id + 2 && Commits(d.log[|c.log|], NextOf(d, id))
    ensures CommittedAs(c.rounds[id + 1], LastCommit(d.log, id + 1))
  {
    assert d.log == c.log + [d.log[|c.log|]];
    LastCommitAppend(c.log, d.log[|c.log|], id + 1);
  }

  ghost predicate CommittedAs(r: Round, commit: Option<Submission>) {
    commit.Some? && !commit.value.abstains && commit.value.root == r.root && commit.value.random == r.random && commit.value.masked == r.masked
  }

  /** In every run a next round that is prepared and does not abstain is committed, with its root, random and mask. */
  lemma PreparedIsCommitted(env: Env, events: seq<Event>, states: seq<Chain>, k: nat)
    requires Run(env, events, states) && k < |events| && events[k].Submit?
    requires var c, e := states[k], events[k];
             && e.id in c.rounds && c.rounds[e.id].phase == InReveal && LinkedAfter(c, e.id)
             && IsReadyToCommit(c.rounds[e.id + 1]) && !c.rounds[e.id + 1].isEmpty
    ensures var next := states[k].rounds[events[k].id + 1];
            next.root.Some? && next.tree != [] && next.root.value == next.tree[0] && CommittedAs(next, LastCommit(states[k + 1].log, events[k].id + 1))
  {
    SubmitSkipsIff(env, events, states, k);
    if |states[k + 1].log| > |states[k].log| { SubmissionSends(env, events, states, k); }
    PreparedSent(states[k], states[k + 1], env, events[k].id, events[k].random, events[k].receipt);
    PreparedHasRoot(env, events, states, k, events[k].id + 1);
  }

  lemma PreparedHasRoot(env: Env, events: seq<Event>, states: seq<Chain>, k: nat, id: nat)
    requires Run(env, events, states) && k < |events| && id in states[k].rounds
    requires states[k].rounds[id].status == CommitDataPrepared && !states[k].rounds[id].isEmpty
    ensures var r := states[k].rounds[id]; r.root.Some? && r.tree != [] && r.root.value == r.tree[0]
  {
    RunKeeps(env, events, states, k);
    assert RoundOk(states[k], env, id);
  }

  /**
   In every run a first commit sends the round as it is left, to the buffer after it, and reveals what
   was saved of the round before.  A round that cannot be committed abstains; the status tells whether the
   submission went through.
   */
  lemma FirstCommitSends(env: Env, events: seq<Event>, states: seq<Chain>, k: nat)
    requires Run(env, events, states) && k < |events| && events[k].FirstCommit?
    ensures var c, d, e := states[k], states[k + 1], events[k];
            && e.id in c.rounds && e.id in d.rounds && |d.log| == |c.log| + 1 && d.log[..|c.log|] == c.log
            && d.log[|c.log|].bufferNumber == e.id + 1 && Commits(d.log[|c.log|], Some(d.rounds[e.id]))
            && d.log[|c.log|].revealRoot == (if e.savedRoot.Some? then e.savedRoot else Some(ZERO_HASH))
            && d.log[|c.log|].revealRandom == (if e.savedRandom.Some? then e.savedRandom else Some(ZERO_HASH))
            && MadeReady(c.rounds[e.id], d.rounds[e.id], env, e.random)
            && d.rounds[e.id].status == (if e.receipt then Committed else RoundStatus.Failed)
            && forall j :: j in c.rounds && j != e.id ==> j in d.rounds && d.rounds[j] == c.rounds[j]
  {
    RunStep(env, events, states, k);
    var c, e := states[k], events[k];
    FirstCommitIs(c.rounds[e.id], env, e);
  }

  lemma FirstCommitIs(r: Round, env: Env, e: Event)
    requires e.FirstCommit?
    ensures var (s, made) := FirstCommitRound(e.id, r, env, e.random, e.receipt, e.savedRoot, e.savedRandom);
            && made.bufferNumber == e.id + 1 && Commits(made, Some(s))
            && made.revealRoot == (if e.savedRoot.Some? then e.savedRoot else Some(ZERO_HASH))
            && made.revealRandom == (if e.savedRandom.Some? then e.savedRandom else Some(ZERO_HASH))
            && MadeReady(r, s, env, e.random) && s.status == (if e.receipt then Committed else RoundStatus.Failed)
  {}
}
