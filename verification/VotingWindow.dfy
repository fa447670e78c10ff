/**
 Which bit votes a round gets.  Chain events - votes, and the timestamps of new blocks - reach the
 round manager in the order of non-decreasing time; everything else the rounds do goes on in between.
 */
module VotingWindow {
  import opened Bitmask
  import opened EpochSettings
  import opened Hex
  import opened HexMeaning
  import opened Merkle
  import opened RoundState
  import opened Wrappers

  import CommitReveal

  type Rounds = map<nat, Round>

  // ---------- one event ----------

  function LowerCase(s: string): (r: string)
    ensures |r| == |s|
  {
    seq(|s|, i requires 0 <= i < |s| => if 'A' <= s[i] <= 'Z' then (s[i] as int + 32) as char else s[i])
  }

  /** The digits of the mask in a vote; its bytes come from the chain, so they are hex. */
  function VoteDigits(vote: string): Digits {
    if IsHex(UnPrefix0x(vote)) then Parse(UnPrefix0x(vote)) else []
  }

  /** Whether a vote is for round `id`: cast in the window of the next epoch, and checked. */
  predicate CountsFor(s: Settings, data: BitVoteData, id: nat) {
    s.GetEpochIdForBitVoteTimeSec(data.timestamp) == Some(id + 1) && data.RoundCheck(id)
  }

  function Registered(s: Settings, r: Round, id: nat, data: BitVoteData): Round {
    if CountsFor(s, data, id) then RegisterBitVote(r, LowerCase(data.sender), VoteDigits(data.BitVote())) else r
  }

  /** Whether a block time shows that voting for round `id` is over. */
  predicate EndsVoting(s: Settings, timestamp: nat, id: nat) {
    s.GetEpochIdForBitVoteTimeSec(timestamp).None? && s.GetEpochIdForTimeSec(timestamp) == id + 1
  }

  ghost function Closed(s: Settings, env: Env, r: Round, id: nat, timestamp: nat, random: Hash): Round
    requires env.assigners > 0 && InRange(r)
  {
    if EndsVoting(s, timestamp, id) then CloseBitVoting(r, env, random) else r
  }

  // ---------- runs ----------

  datatype Event =
    | Vote(data: BitVoteData)
    | Block(timestamp: nat, random: Hash)
    | Created(id: nat, defaultSet: seq<string>)
    | Dropped(id: nat)
    /** Any other callback of a round; what it does to the round is left open, except that it takes no votes. */
    | Callback(id: nat, after: Round)

  ghost predicate LeavesVotes(r: Round, s: Round) {
    s.bitVotes == r.bitVotes && s.defaultSet == r.defaultSet
  }

  ghost predicate AllInRange(m: Rounds) {
    forall id :: id in m ==> InRange(m[id])
  }

  ghost predicate Enabled(m: Rounds, e: Event) {
    match e
    case Created(id, _) => id !in m
    case Callback(id, after) => id in m && LeavesVotes(m[id], after) && InRange(after)
    case _ => true
  }

  ghost function Apply(s: Settings, env: Env, m: Rounds, e: Event): Rounds
    requires env.assigners > 0 && AllInRange(m) && Enabled(m, e)
  {
    match e
    case Vote(data) => map id | id in m :: Registered(s, m[id], id, data)
    case Block(timestamp, random) => map id | id in m :: Closed(s, env, m[id], id, timestamp, random)
    case Created(id, defaultSet) => m[id := NewRound(id, defaultSet)]
    case Dropped(id) => m - {id}
    case Callback(id, after) => m[id := after]
  }

  lemma ClosingLeavesVotes(r: Round, env: Env, random: Hash)
    requires env.assigners > 0 && InRange(r)
    ensures LeavesVotes(r, CloseBitVoting(r, env, random)) && InRange(CloseBitVoting(r, env, random))
    ensures CloseBitVoting(r, env, random).status.Rank() >= BitVotingClosed.Rank()
  {
    if r.status.Rank() < BitVotingClosed.Rank() {
      var closed := r.(status := BitVotingClosed);
      CalculatingLeavesVotes(closed, env);
      PreparingLeavesVotes(TryCalculateBitVotingResults(closed, env), env, random);
    }
  }

  lemma CalculatingLeavesVotes(r: Round, env: Env)
    requires env.assigners > 0 && InRange(r)
    ensures var s := TryCalculateBitVotingResults(r, env);
            LeavesVotes(r, s) && InRange(s) && s.status.Rank() >= r.status.Rank()
  {
    CalculatedInRange(r, env);
    CalculatedChanges(r, env);
  }

  lemma PreparingLeavesVotes(r: Round, env: Env, random: Hash)
    requires InRange(r)
    ensures var s := TryPrepareCommitData(r, env, random);
            LeavesVotes(r, s) && InRange(s) && s.status.Rank() >= r.status.Rank()
  {}

  /** The callbacks of a round that take no votes are instances of `Callback`. */
  lemma OtherCallbacksLeaveVotes(r: Round, env: Env, e: CommitReveal.Event)
    requires env.assigners > 0 && InRange(r)
    requires CommitReveal.OnRequest(e) ==> CommitReveal.Pending(r, e.index)
    requires !e.Vote?
    ensures LeavesVotes(r, CommitReveal.Local(r, env, e)) && InRange(CommitReveal.Local(r, env, e))
  {
    match e
    case Processed(_, i, status, hash, random) =>
      var counted := Counted(r, i, status, hash);
      CalculatingLeavesVotes(counted, env);
      PreparingLeavesVotes(TryCalculateBitVotingResults(counted, env), env, random);
    case CloseVoting(_, random) => ClosingLeavesVotes(r, env, random);
    case CommitPhaseStart(_, random) => PreparingLeavesVotes(r.(phase := Commit), env, random);
    case _ =>
  }

  lemma ApplyKeepsRange(s: Settings, env: Env, m: Rounds, e: Event)
    requires env.assigners > 0 && AllInRange(m) && Enabled(m, e)
    ensures AllInRange(Apply(s, env, m, e))
  {
    if e.Block? {
      forall id | id in m ensures InRange(Closed(s, env, m[id], id, e.timestamp, e.random)) {
        ClosingLeavesVotes(m[id], env, e.random);
      }
    }
  }

  function Time(e: Event): Option<nat> {
    match e
    case Vote(data) => Some(data.timestamp)
    case Block(timestamp, _) => Some(timestamp)
    case _ => None
  }

  ghost predicate InOrder(events: seq<Event>) {
    forall i, j :: 0 <= i < j < |events| && Time(events[i]).Some? && Time(events[j]).Some? ==>
      Time(events[i]).value <= Time(events[j]).value
  }

  ghost predicate StepOf(s: Settings, env: Env, m: Rounds, e: Event, n: Rounds)
    requires env.assigners > 0
  {
    AllInRange(m) ==> Enabled(m, e) && n == Apply(s, env, m, e)
  }

  ghost predicate Run(s: Settings, env: Env, events: seq<Event>, states: seq<Rounds>) {
    && env.assigners > 0 && |states| == |events| + 1 && states[0] == map[]
    && forall k :: 0 <= k < |events| ==> StepOf(s, env, states[k], events[k], states[k + 1])
  }

  /** The indices are in range in every state of a run, so every step is one of those there are. */
  lemma {:induction false} RunStep(s: Settings, env: Env, events: seq<Event>, states: seq<Rounds>, k: nat)
    requires Run(s, env, events, states) && k <= |events|
    ensures AllInRange(states[k])
    ensures k < |events| ==> Enabled(states[k], events[k]) && states[k + 1] == Apply(s, env, states[k], events[k])
  {
    if k > 0 {
      RunStep(s, env, events, states, k - 1);
      ApplyKeepsRange(s, env, states[k - 1], events[k - 1]);
    }
    assert k < |events| ==> StepOf(s, env, states[k], events[k], states[k + 1]);
  }

  // ---------- what a vote is, character by character ----------

  /** The address in lower case. */
  ghost predicate IsLowerCaseOf(sender: string, member: string) {
    |member| == |sender|
    && forall i :: 0 <= i < |sender| ==> member[i] == if 'A' <= sender[i] <= 'Z' then (sender[i] as int + 32) as char else sender[i]
  }

  /** The message is that for round `id`: behind a prefix its first two characters begin with the last byte of the id. */
  ghost predicate ForRound(data: string, id: nat) {
    |Behind(data)| >= 2 && StartsWith(Behind(data)[..2], id % 256)
  }

  /** The digits behind those two characters, and behind a prefix of their own; none if one is not hex, and a zero if there is nothing. */
  ghost predicate CarriesMask(data: string, mask: Digits) {
    |Behind(data)| >= 2 &&
    var rest := if Behind(data)[2..] == "" then "0" else Behind(Behind(data)[2..]);
    if HexText(rest) then |mask| == |rest| && forall i :: 0 <= i < |rest| ==> mask[i] == CharValue(rest[i]) else mask == []
  }

  /** Cast in the window of the epoch after that of round `id`, both ends included. */
  ghost predicate InWindow(s: Settings, timestamp: nat, id: nat) {
    s.firstEpochStart + (id + 1) * s.epochPeriod <= 1000 * timestamp <= s.firstEpochStart + (id + 1) * s.epochPeriod + s.bitVoteWindow
    && 1000 * timestamp < s.firstEpochStart + (id + 2) * s.epochPeriod
  }

  lemma LowerCaseMeans(sender: string, member: string)
    ensures LowerCase(sender) == member <==> IsLowerCaseOf(sender, member)
  {}

  lemma NextStart(s: Settings, id: nat)
    ensures s.firstEpochStart + (id + 2) * s.epochPeriod == s.firstEpochStart + (id + 1) * s.epochPeriod + s.epochPeriod
    ensures s.firstEpochStart + (id + 1) * s.epochPeriod >= s.firstEpochStart
  {
    MulMonotone(0, id + 1, s.epochPeriod);
  }

  lemma CountsMeans(s: Settings, data: BitVoteData, id: nat)
    requires 1000 * data.timestamp >= s.firstEpochStart
    ensures CountsFor(s, data, id) <==> InWindow(s, data.timestamp, id) && ForRound(data.data, id)
  {
    BitVoteWindow(s, data.timestamp, id + 1);
    NextStart(s, id);
    if |Behind(data.data)| >= 2 { NumberAtStart(Behind(data.data)[..2], id % 256); }
  }

  lemma MaskMeans(data: BitVoteData, mask: Digits)
    requires |Behind(data.data)| >= 2
    ensures VoteDigits(data.BitVote()) == mask <==> CarriesMask(data.data, mask)
  {
    var rest := Behind(data.data)[2..];
    var text := if rest == "" then "0" else Behind(rest);
    VoteText(rest, text);
    TextIsHex(text);
    if IsHex(text) {
      forall i | 0 <= i < |text| ensures Parse(text)[i] == CharValue(text[i]) { CharMeans(text[i]); }
    }
  }

  lemma VoteText(rest: string, text: string)
    requires text == if rest == "" then "0" else Behind(rest)
    ensures UnPrefix0x(Prefix0x(rest)) == text
  {
    if rest != "" && !Prefixed(rest) { assert ("0x" + rest)[2..] == rest; }
    if rest == "" { assert "0x0"[2..] == "0"; }
  }

  /** From the first epoch on, voting for a round is over with a time past the window and within the same epoch. */
  lemma EndsMeans(s: Settings, timestamp: nat, id: nat)
    requires 1000 * timestamp >= s.firstEpochStart
    ensures EndsVoting(s, timestamp, id) <==>
              s.firstEpochStart + (id + 1) * s.epochPeriod + s.bitVoteWindow < 1000 * timestamp < s.firstEpochStart + (id + 2) * s.epochPeriod
  {
    var time := 1000 * timestamp;
    NextStart(s, id);
    EpochOfTime(s, time);
    var epoch := s.GetEpochIdForTime(time);
    BitVoteWindow(s, timestamp, epoch);
    BitVoteWindow(s, timestamp, id + 1);
    if s.GetRoundIdTimeStart(id + 1) + s.bitVoteWindow < time < s.GetEpochIdTimeEnd(id + 1) { EpochUnique(s, time, id + 1, epoch); }
  }

  /** A vote of the member for round `id`, with that mask. */
  ghost predicate VotesFor(s: Settings, e: Event, id: nat, member: string, mask: Digits) {
    e.Vote? && InWindow(s, e.data.timestamp, id) && ForRound(e.data.data, id) && IsLowerCaseOf(e.data.sender, member) && CarriesMask(e.data.data, mask)
  }

  lemma VotesForMeans(s: Settings, e: Event, id: nat, member: string, mask: Digits)
    requires e.Vote? ==> 1000 * e.data.timestamp >= s.firstEpochStart
    ensures VotesFor(s, e, id, member, mask) <==>
              e.Vote? && CountsFor(s, e.data, id) && LowerCase(e.data.sender) == member && VoteDigits(e.data.BitVote()) == mask
  {
    if e.Vote? {
      CountsMeans(s, e.data, id);
      LowerCaseMeans(e.data.sender, member);
      if |Behind(e.data.data)| >= 2 { MaskMeans(e.data, mask); }
    }
  }

  ghost predicate AfterFirstEpoch(s: Settings, events: seq<Event>) {
    forall i :: 0 <= i < |events| && events[i].Vote? ==> 1000 * events[i].data.timestamp >= s.firstEpochStart
  }

  // ---------- the votes a round holds ----------

  /** The last vote of `member` for round `id` among the events; the reference the vote map is measured by. */
  function LastVote(s: Settings, events: seq<Event>, id: nat, member: string): Option<Digits> {
    if events == [] then None
    else
      var e := events[|events| - 1];
      if e.Vote? && CountsFor(s, e.data, id) && LowerCase(e.data.sender) == member then Some(VoteDigits(e.data.BitVote()))
      else LastVote(s, events[..|events| - 1], id, member)
  }

  ghost predicate IsLastVote(s: Settings, events: seq<Event>, id: nat, member: string, mask: Digits) {
    exists i :: 0 <= i < |events| && VotesFor(s, events[i], id, member, mask) && NoneAfter(s, events, i, id, member)
  }

  ghost predicate NoneAfter(s: Settings, events: seq<Event>, i: int, id: nat, member: string) {
    forall j :: i < j < |events| && j >= 0 ==> NoVote(s, events[j], id, member)
  }

  ghost predicate NoVote(s: Settings, e: Event, id: nat, member: string) {
    forall mask :: !VotesFor(s, e, id, member, mask)
  }

  /** The last vote is one of the member for the round, and none of the member's comes after it. */
  lemma {:induction false} LastVoteMeans(s: Settings, events: seq<Event>, id: nat, member: string, mask: Digits)
    requires AfterFirstEpoch(s, events)
    ensures LastVote(s, events, id, member) == Some(mask) <==> IsLastVote(s, events, id, member, mask)
    decreases |events|
  {
    if events != [] {
      var front, e := events[..|events| - 1], events[|events| - 1];
      LastVoteMeans(s, front, id, member, mask);
      VoteOrNone(s, e, id, member, mask);
      LastOfLonger(s, events, front, e, id, member, mask);
    }
  }

  lemma VoteOrNone(s: Settings, e: Event, id: nat, member: string, mask: Digits)
    requires e.Vote? ==> 1000 * e.data.timestamp >= s.firstEpochStart
    ensures if e.Vote? && CountsFor(s, e.data, id) && LowerCase(e.data.sender) == member then
              !NoVote(s, e, id, member) && (VotesFor(s, e, id, member, mask) <==> VoteDigits(e.data.BitVote()) == mask)
            else NoVote(s, e, id, member)
  {
    forall m ensures VotesFor(s, e, id, member, m) <==>
                       e.Vote? && CountsFor(s, e.data, id) && LowerCase(e.data.sender) == member && VoteDigits(e.data.BitVote()) == m
    {
      VotesForMeans(s, e, id, member, m);
    }
    if e.Vote? { assert VotesFor(s, e, id, member, VoteDigits(e.data.BitVote())) || NoVote(s, e, id, member); }
  }

  lemma LastOfLonger(s: Settings, events: seq<Event>, front: seq<Event>, e: Event, id: nat, member: string, mask: Digits)
    requires events == front + [e]
    ensures IsLastVote(s, events, id, member, mask) <==>
              VotesFor(s, e, id, member, mask) || (NoVote(s, e, id, member) && IsLastVote(s, front, id, member, mask))
  {
    assert events[|front|] == e;
    if VotesFor(s, e, id, member, mask) { assert NoneAfter(s, events, |front|, id, member); }
    if i :| 0 <= i < |front| && VotesFor(s, front[i], id, member, mask) && NoneAfter(s, front, i, id, member) {
      assert events[i] == front[i];
      if NoVote(s, e, id, member) { assert NoneAfter(s, events, i, id, member); }
    }
    if i :| 0 <= i < |events| && VotesFor(s, events[i], id, member, mask) && NoneAfter(s, events, i, id, member) {
      if i < |front| {
        assert front[i] == events[i];
        forall j | i < j < |front| ensures NoVote(s, front[j], id, member) { assert front[j] == events[j]; }
        assert NoneAfter(s, front, i, id, member);
      }
    }
  }

  ghost predicate HoldsLast(s: Settings, events: seq<Event>, id: nat, r: Round, member: string) {
    && (member in r.bitVotes <==> member in r.defaultSet && LastVote(s, events, id, member).Some?)
    && (member in r.bitVotes ==> LastVote(s, events, id, member) == Some(r.bitVotes[member]))
  }

  ghost predicate HoldsLastVotes(s: Settings, events: seq<Event>, id: nat, defaultSet: seq<string>, r: Round) {
    r.defaultSet == defaultSet && forall member :: HoldsLast(s, events, id, r, member)
  }

  lemma LastVoteStep(s: Settings, env: Env, events: seq<Event>, id: nat, defaultSet: seq<string>, m: Rounds, e: Event)
    requires env.assigners > 0 && AllInRange(m) && Enabled(m, e) && e != Dropped(id)
    requires id in m && HoldsLastVotes(s, events, id, defaultSet, m[id])
    ensures id in Apply(s, env, m, e) && HoldsLastVotes(s, events + [e], id, defaultSet, Apply(s, env, m, e)[id])
  {
    var r, after := m[id], Apply(s, env, m, e)[id];
    if e.Block? { ClosingLeavesVotes(r, env, e.random); }
    assert (events + [e])[..|events|] == events;
    forall member ensures HoldsLast(s, events + [e], id, after, member) {
      assert HoldsLast(s, events, id, r, member);
    }
  }

  /**
   In every run, from the creation of a round on, its vote map holds for each member of its default
   set the last vote cast in the window and carrying the right round check, and nothing else.
   */
  lemma {:induction false} VotesAreLast(s: Settings, env: Env, events: seq<Event>, states: seq<Rounds>, c: nat, k: nat, id: nat, defaultSet: seq<string>)
    requires Run(s, env, events, states) && c < k <= |events|
    requires events[c] == Created(id, defaultSet)
    requires forall j :: c < j < k ==> events[j] != Dropped(id)
    ensures id in states[k] && HoldsLastVotes(s, events[c + 1..k], id, defaultSet, states[k][id])
    decreases k
  {
    RunStep(s, env, events, states, k - 1);
    if k == c + 1 {
      assert events[c + 1..k] == [];
    } else {
      VotesAreLast(s, env, events, states, c, k - 1, id, defaultSet);
      LastVoteStep(s, env, events[c + 1..k - 1], id, defaultSet, states[k - 1], events[k - 1]);
      assert events[c + 1..k] == events[c + 1..k - 1] + [events[k - 1]];
    }
  }

  /** The votes that are counted: each member's last one, or the empty vote. */
  lemma CountedVotesAreLast(s: Settings, events: seq<Event>, id: nat, defaultSet: seq<string>, r: Round, i: nat)
    requires HoldsLastVotes(s, events, id, defaultSet, r) && i < |defaultSet|
    ensures var last := LastVote(s, events, id, defaultSet[i]);
            CollectVotes(r.bitVotes, r.defaultSet)[i] == if last.Some? then last.value else [0, 0]
  {
    assert HoldsLast(s, events, id, r, defaultSet[i]);
  }

  /** With times in order, no vote that comes after the block that ended the voting counts for the round. */
  lemma NoVoteAfterEnd(s: Settings, events: seq<Event>, k: nat, j: nat, id: nat)
    requires InOrder(events) && k < j < |events|
    requires events[k].Block? && EndsVoting(s, events[k].timestamp, id)
    requires events[j].Vote?
    ensures !CountsFor(s, events[j].data, id)
  {
    DeadlinePasses(s, Time(events[k]).value, Time(events[j]).value);
  }

  lemma StepLeavesVotes(s: Settings, env: Env, rounds: Rounds, e: Event, id: nat)
    requires env.assigners > 0 && AllInRange(rounds) && Enabled(rounds, e) && id in rounds && e != Dropped(id)
    requires e.Vote? ==> !CountsFor(s, e.data, id)
    ensures id in Apply(s, env, rounds, e) && LeavesVotes(rounds[id], Apply(s, env, rounds, e)[id])
  {
    if e.Block? { ClosingLeavesVotes(rounds[id], env, e.random); }
  }

  lemma EndCloses(s: Settings, env: Env, m: Rounds, e: Event, id: nat)
    requires env.assigners > 0 && AllInRange(m) && e.Block? && EndsVoting(s, e.timestamp, id) && id in m
    ensures var n := Apply(s, env, m, e);
            id in n && n[id].status.Rank() >= BitVotingClosed.Rank() && LeavesVotes(m[id], n[id])
  {
    ClosingLeavesVotes(m[id], env, e.random);
  }

  lemma {:induction false} VotesStay(s: Settings, env: Env, events: seq<Event>, states: seq<Rounds>, k: nat, j: nat, id: nat)
    requires Run(s, env, events, states) && InOrder(events) && k < j <= |events|
    requires events[k].Block? && EndsVoting(s, events[k].timestamp, id)
    requires id in states[k] && id in states[k + 1] && LeavesVotes(states[k][id], states[k + 1][id])
    requires forall i :: k < i < j ==> events[i] != Dropped(id)
    ensures id in states[j] && LeavesVotes(states[k][id], states[j][id])
    decreases j
  {
    if j > k + 1 {
      RunStep(s, env, events, states, j - 1);
      VotesStay(s, env, events, states, k, j - 1, id);
      if events[j - 1].Vote? { NoVoteAfterEnd(s, events, k, j - 1, id); }
      StepLeavesVotes(s, env, states[j - 1], events[j - 1], id);
    }
  }

  /**
   Voting window safety: once a block has ended the voting for a round, its voting is closed, and in
   no later state of the run does its vote map differ.
   */
  lemma VotesFinalAfterEnd(s: Settings, env: Env, events: seq<Event>, states: seq<Rounds>, k: nat, j: nat, id: nat)
    requires Run(s, env, events, states) && InOrder(events) && k < j <= |events|
    requires events[k].Block? && EndsVoting(s, events[k].timestamp, id) && id in states[k]
    requires forall i :: k < i < j ==> events[i] != Dropped(id)
    ensures id in states[k + 1] && states[k + 1][id].status.Rank() >= BitVotingClosed.Rank()
    ensures id in states[j] && LeavesVotes(states[k][id], states[j][id])
  {
    RunStep(s, env, events, states, k);
    EndCloses(s, env, states[k], events[k], id);
    VotesStay(s, env, events, states, k, j, id);
  }
}
