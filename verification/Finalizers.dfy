/**
 finalize_voting between its awaits: the last vote, the voting timer and any number of stragglers may
 all run it for one room at once, with votes still coming in.

 Every lookup is fresh.  A step is what runs between two awaits; the room's lock is held from Acquire
 to Release.  Who calls it and how late is left open, which covers every delay of the broadcasts that
 come between a vote's commit and its call.
 */
module Finalizers {
  import opened Domain
  import opened RoomStates
  import opened Protocol
  import opened RoomInvariant
  import opened QuestioningVoting
  import opened SessionSteps
  import opened RoomRuns
  import Audit

  type CallId = nat

  /** Where a call of finalize_voting is suspended. */
  datatype Stage =
    | AtLock                        // waits for the lock, the voting timer cancelled
    | Announcing                    // broadcasts voting_completed
    | Leaving                       // broadcasts the move to ELIMINATION
    | Reporting(next: RoomState)    // tells the eliminated
    | Entering(next: RoomState)     // broadcasts the move to the next phase
    | Closing                       // broadcasts what the next phase began with
    | Returned

  /** One room's slice with its lock and its calls, the votes accepted so far and how often a tally was committed. */
  datatype Hall = Hall(
    slice: Slice,
    lock: Option<CallId>,
    calls: map<CallId, Stage>,
    cast: seq<Vote>,
    tallies: nat,
    outcome: Option<Slice>)

  datatype Segment =
    | Cast(voter: UserId, choice: Choice)
    | TimerFires
    | Call(id: CallId)
    | Resume(id: CallId)
    | Proceed(slice: Slice)

  function At(h: Hall, id: CallId, stage: Stage): Hall {
    h.(calls := h.calls[id := stage])
  }

  /** The lock is free: a room that is past its elimination is left alone. */
  function Acquired(h: Hall, id: CallId): Hall {
    if h.slice.room.state.Voting? || h.slice.room.state.Elimination?
    then At(h, id, Announcing).(lock := Some(id))
    else At(h, id, Returned)
  }

  function CommitTally(h: Hall, id: CallId): Hall {
    At(h, id, Reporting(AfterElimination(Keepers(h.slice.room)))).(slice := Tally(h.slice), tallies := h.tallies + 1)
  }

  function Committing(s: Slice, target: RoomState): Slice {
    s.(room := Committed(s.room, target))
  }

  ghost function Resumed(h: Hall, id: CallId, stage: Stage): Hall {
    match stage
    case AtLock => if h.lock.None? then Acquired(h, id) else h
    case Announcing =>
      if h.slice.room.state.Voting? then At(h, id, Leaving).(slice := Committing(h.slice, RoomState.Elimination))
      else CommitTally(h, id)
    case Leaving => CommitTally(h.(slice := h.slice.(timer := AfterLeaving(RoomState.Voting, h.slice.timer))), id)
    case Reporting(next) =>
      if IsValidTransition(h.slice.room.state, next) then At(h, id, Entering(next)).(slice := Committing(h.slice, next))
      else At(h, id, Returned).(lock := None)
    case Entering(next) =>
      var s := Entered(h.slice.(timer := AfterLeaving(RoomState.Elimination, h.slice.timer)), next);
      At(h, id, Closing).(slice := s, outcome := Some(s))
    case Closing => At(h, id, Returned).(lock := None)
    case Returned => h
  }

  /** A room whose elimination is over, its next phase begun. */
  predicate Beyond(s: Slice) {
    && !s.room.state.Voting? && !s.room.state.Elimination?
    && (s.timer.Some? ==> !s.timer.value.kind.VotingTimer?)
  }

  /** Other services act on the room only once the phase after the elimination has begun. */
  predicate Enabled(h: Hall, x: Segment) {
    match x
    case Call(id) => id !in h.calls
    case Resume(id) => id in h.calls
    case Proceed(s) => h.outcome.Some? && Beyond(s)
    case _ => true
  }

  ghost function Step(h: Hall, x: Segment): Hall
    requires Enabled(h, x)
  {
    match x
    case Cast(voter, choice) =>
      if VoteError(h.slice.room, voter).Some? then h
      else h.(slice := CastVote(h.slice, voter, choice), cast := h.cast + [Vote(h.slice.room.round, voter, choice)])
    case TimerFires => h.(slice := h.slice.(timer := AfterCancel(h.slice.timer, Some(VotingTimer))))
    case Call(id) => At(h, id, AtLock).(slice := h.slice.(timer := AfterCancel(h.slice.timer, Some(VotingTimer))))
    case Resume(id) => Resumed(h, id, h.calls[id])
    case Proceed(s) => h.(slice := s)
  }

  // ----- What every interleaving keeps -----

  /** The phase's room with all accepted votes, and no timer. */
  function Base(start: Slice, cast: seq<Vote>): Slice {
    start.(room := start.room.(votes := start.room.votes + cast), timer := None)
  }

  function Counting(start: Slice, cast: seq<Vote>): Slice {
    Committing(Base(start, cast), RoomState.Elimination)
  }

  predicate Holding(stage: Stage) {
    !stage.AtLock? && !stage.Returned?
  }

  /** The slice up to a voting timer. */
  predicate Is(s: Slice, t: Slice) {
    s.(timer := None) == t && (s.timer.Some? ==> s.timer.value.kind.VotingTimer?)
  }

  ghost predicate StillVoting(h: Hall, start: Slice) {
    Is(h.slice, Base(start, h.cast)) && h.tallies == 0 && h.outcome.None?
  }

  ghost predicate Over(h: Hall, start: Slice) {
    Beyond(h.slice) && h.tallies == 1 && h.outcome == Some(FinalizeVoting(Base(start, h.cast)))
  }

  /** The phase as the call that holds the lock has left it. */
  ghost predicate Progress(h: Hall, start: Slice, stage: Stage) {
    match stage
    case Announcing => StillVoting(h, start)
    case Leaving => Is(h.slice, Counting(start, h.cast)) && h.tallies == 0 && h.outcome.None?
    case Reporting(next) =>
      && h.slice == Tally(Counting(start, h.cast)) && next == AfterElimination(Keepers(Counting(start, h.cast).room))
      && h.tallies == 1 && h.outcome.None?
    case Entering(next) =>
      && h.slice == Committing(Tally(Counting(start, h.cast)), next)
      && next == AfterElimination(Keepers(Counting(start, h.cast).room))
      && h.tallies == 1 && h.outcome.None?
    case Closing => Over(h, start)
    case _ => false
  }

  ghost predicate Inv(h: Hall, start: Slice) {
    && (forall id | id in h.calls :: Holding(h.calls[id]) <==> h.lock == Some(id))
    && (h.lock.Some? ==> h.lock.value in h.calls && Progress(h, start, h.calls[h.lock.value]))
    && (h.lock.None? ==> StillVoting(h, start) || Over(h, start))
    && (forall id | id in h.calls && h.calls[id].Returned? :: Over(h, start))
  }

  /** A room in its public vote, before anybody finalizes it. */
  ghost predicate Begins(h: Hall, start: Slice) {
    && start.room.state.Voting? && (start.timer.Some? ==> start.timer.value.kind.VotingTimer?)
    && h == Hall(start, None, map[], [], 0, None)
  }

  lemma OutcomeIs(start: Slice, cast: seq<Vote>)
    requires start.room.state.Voting?
    ensures var t := Tally(Counting(start, cast)); var next := AfterElimination(Keepers(Counting(start, cast).room));
      && t.timer.None? && t.room.state.Elimination? && IsValidTransition(t.room.state, next)
      && FinalizeVoting(Base(start, cast)) == Entered(Committing(t, next), next)
      && Beyond(Entered(Committing(t, next), next))
  {
    var b := Base(start, cast);
    assert b.(timer := None) == b;
    assert Moved(b, RoomState.Elimination) == Counting(start, cast);
    hide Tally, Keepers;
  }

  /** While votes are accepted nothing has been counted, and no call is past its announcement. */
  lemma VotingIsOpen(h: Hall, start: Slice)
    requires Inv(h, start) && start.room.state.Voting? && h.slice.room.state.Voting?
    ensures StillVoting(h, start) && (h.lock.Some? ==> h.calls[h.lock.value].Announcing?)
    ensures forall id | id in h.calls :: !h.calls[id].Returned?
  {
    TallyStage(Counting(start, h.cast));
    hide FinalizeVoting, Tally, Keepers;
  }

  lemma CastKeeps(h: Hall, start: Slice, voter: UserId, choice: Choice)
    requires Inv(h, start) && start.room.state.Voting?
    ensures Inv(Step(h, Cast(voter, choice)), start)
  {
    hide FinalizeVoting, Tally, Keepers, ActiveAudience, VoteOf;
    if VoteError(h.slice.room, voter).None? {
      VotingIsOpen(h, start);
      assert start.room.votes + (h.cast + [Vote(h.slice.room.round, voter, choice)])
          == (start.room.votes + h.cast) + [Vote(h.slice.room.round, voter, choice)];
    }
  }

  lemma TallyStage(s: Slice)
    ensures Tally(s).timer == s.timer && Tally(s).room.state == s.room.state
  {
  }

  /** Cancelling a voting timer touches nothing once the elimination has been counted. */
  lemma CancelKeeps(h: Hall, start: Slice)
    requires Inv(h, start)
    ensures Inv(h.(slice := h.slice.(timer := AfterCancel(h.slice.timer, Some(VotingTimer)))), start)
  {
    TallyStage(Counting(start, h.cast));
    hide FinalizeVoting, Tally, Keepers;
  }

  lemma CallKeeps(h: Hall, start: Slice, id: CallId)
    requires Inv(h, start) && id !in h.calls
    ensures Inv(At(h, id, AtLock), start)
  {
    hide FinalizeVoting, Tally, Keepers, Is, Beyond;
  }

  lemma ResumeKeeps(h: Hall, start: Slice, id: CallId)
    requires Inv(h, start) && start.room.state.Voting? && id in h.calls
    ensures Inv(Resumed(h, id, h.calls[id]), start)
  {
    hide Inv, Resumed;
    match h.calls[id]
    case AtLock => AcquireKeeps(h, start, id);
    case Announcing => AnnouncedKeeps(h, start, id);
    case Leaving => LeftKeeps(h, start, id);
    case Reporting(_) => ReportedKeeps(h, start, id);
    case Entering(_) => EnteredKeeps(h, start, id);
    case Closing => ClosedKeeps(h, start, id);
    case Returned => ReturnedKeeps(h, start, id);
  }

  lemma ReportedKeeps(h: Hall, start: Slice, id: CallId)
    requires Inv(h, start) && start.room.state.Voting? && id in h.calls && h.calls[id].Reporting?
    ensures Inv(Resumed(h, id, h.calls[id]), start)
  {
    hide FinalizeVoting, Tally, Keepers, Entered, Is, Beyond, AfterElimination;
    OutcomeIs(start, h.cast);
  }

  lemma EnteredKeeps(h: Hall, start: Slice, id: CallId)
    requires Inv(h, start) && start.room.state.Voting? && id in h.calls && h.calls[id].Entering?
    ensures Inv(Resumed(h, id, h.calls[id]), start)
  {
    hide FinalizeVoting, Tally, Keepers, Entered, Is, Beyond, AfterElimination;
    OutcomeIs(start, h.cast);
    assert h.slice.(timer := AfterLeaving(RoomState.Elimination, h.slice.timer)) == h.slice;
  }

  lemma ClosedKeeps(h: Hall, start: Slice, id: CallId)
    requires Inv(h, start) && id in h.calls && h.calls[id].Closing?
    ensures Inv(Resumed(h, id, h.calls[id]), start)
  {
    hide FinalizeVoting, Tally, Keepers, Entered, Is, Beyond;
  }

  lemma ReturnedKeeps(h: Hall, start: Slice, id: CallId)
    requires Inv(h, start) && id in h.calls && h.calls[id].Returned?
    ensures Inv(Resumed(h, id, h.calls[id]), start)
  {
    hide Inv;
  }

  lemma AcquireKeeps(h: Hall, start: Slice, id: CallId)
    requires Inv(h, start) && start.room.state.Voting? && id in h.calls && h.calls[id].AtLock?
    ensures Inv(Resumed(h, id, AtLock), start)
  {
    hide FinalizeVoting, Tally, Keepers;
  }

  lemma AnnouncedKeeps(h: Hall, start: Slice, id: CallId)
    requires Inv(h, start) && start.room.state.Voting? && id in h.calls && h.calls[id].Announcing?
    ensures Inv(Resumed(h, id, Announcing), start)
  {
    hide FinalizeVoting, Tally, Keepers;
  }

  lemma LeftKeeps(h: Hall, start: Slice, id: CallId)
    requires Inv(h, start) && start.room.state.Voting? && id in h.calls && h.calls[id].Leaving?
    ensures Inv(Resumed(h, id, Leaving), start)
  {
    assert h.slice.(timer := AfterLeaving(RoomState.Voting, h.slice.timer)) == Counting(start, h.cast);
    hide FinalizeVoting, Tally, Keepers;
  }

  lemma StepKeepsInv(h: Hall, start: Slice, x: Segment)
    requires Inv(h, start) && start.room.state.Voting? && Enabled(h, x)
    ensures Inv(Step(h, x), start)
  {
    hide Resumed, FinalizeVoting, Tally;
    match x
    case Cast(voter, choice) => CastKeeps(h, start, voter, choice);
    case TimerFires => CancelKeeps(h, start);
    case Call(id) =>
      CancelKeeps(h, start);
      CallKeeps(h.(slice := h.slice.(timer := AfterCancel(h.slice.timer, Some(VotingTimer)))), start, id);
    case Resume(id) => ResumeKeeps(h, start, id);
    case Proceed(_) =>
  }

  // ----- Whole runs -----

  ghost predicate IsRun(hs: seq<Hall>, xs: seq<Segment>, start: Slice) {
    && |hs| == |xs| + 1 && Begins(hs[0], start)
    && forall i | 0 <= i < |xs| :: Enabled(hs[i], xs[i]) && hs[i + 1] == Step(hs[i], xs[i])
  }

  lemma BeginsOpen(h: Hall, start: Slice)
    requires Begins(h, start)
    ensures start.room.state.Voting? && Inv(h, start)
  {
    assert start.room.votes + [] == start.room.votes;
    hide FinalizeVoting, Tally;
  }

  lemma {:induction false} RunKeepsInv(hs: seq<Hall>, xs: seq<Segment>, start: Slice, i: nat)
    requires IsRun(hs, xs, start) && i <= |xs|
    ensures start.room.state.Voting? && Inv(hs[i], start)
  {
    hide Inv, Step, Enabled, Begins;
    BeginsOpen(hs[0], start);
    if i > 0 {
      RunKeepsInv(hs, xs, start, i - 1);
      StepKeepsInv(hs[i - 1], start, xs[i - 1]);
    }
  }

  /**
   However many calls race, the tally is committed at most once; once any call has returned it has been
   committed, and what the room then entered is what finalizing it in one step, with every vote ever
   accepted, would have given.
   */
  lemma TalliedOnce(hs: seq<Hall>, xs: seq<Segment>, start: Slice, i: nat)
    requires IsRun(hs, xs, start) && i <= |xs|
    ensures hs[i].tallies <= 1
    ensures hs[i].outcome.Some? ==> hs[i].tallies == 1 && hs[i].outcome.value == FinalizeVoting(Base(start, hs[i].cast))
    ensures (exists id :: id in hs[i].calls && hs[i].calls[id].Returned?) ==> hs[i].outcome.Some?
  {
    hide Step, Enabled, Begins, FinalizeVoting, Tally, Keepers, Is, Beyond;
    RunKeepsInv(hs, xs, start, i);
    hide IsRun;
  }

  /** How many awaits a call still has before it. */
  function Ahead(stage: Stage): nat {
    match stage
    case AtLock => 6
    case Announcing => 5
    case Leaving => 4
    case Reporting(_) => 3
    case Entering(_) => 2
    case Closing => 1
    case Returned => 0
  }

  /** No deadlock: as long as some call has not returned, resuming some call brings that call nearer to its end. */
  lemma SomeCallAdvances(h: Hall, start: Slice, id: CallId)
    requires Inv(h, start) && id in h.calls && !h.calls[id].Returned?
    ensures exists j :: j in h.calls && Ahead(Resumed(h, j, h.calls[j]).calls[j]) < Ahead(h.calls[j])
  {
    hide FinalizeVoting, Tally, Keepers, Entered, Progress, StillVoting, Over;
    var j := if h.lock.Some? then h.lock.value else id;
    assert Holding(h.calls[j]) <==> h.lock == Some(j);
    assert j in Resumed(h, j, h.calls[j]).calls;
    assert Ahead(Resumed(h, j, h.calls[j]).calls[j]) < Ahead(h.calls[j]);
  }

  lemma CastingIsOpen(h: Hall, start: Slice, voter: UserId)
    requires Inv(h, start) && start.room.state.Voting? && VoteError(h.slice.room, voter).None?
    ensures h.tallies == 0 && h.slice.room == Base(start, h.cast).room
  {
    VotingIsOpen(h, start);
    hide Inv, ActiveAudience, VoteOf;
  }

  /** The log of accepted votes only grows, and not at all once they have been counted. */
  lemma StepCasts(h: Hall, start: Slice, x: Segment)
    requires Inv(h, start) && start.room.state.Voting? && Enabled(h, x)
    ensures h.cast <= Step(h, x).cast && h.tallies <= Step(h, x).tallies
    ensures h.tallies == 1 ==> Step(h, x).cast == h.cast
    ensures x.Cast? && VoteError(h.slice.room, x.voter).None? ==>
      Step(h, x).cast == h.cast + [Vote(start.room.round, x.voter, x.choice)]
  {
    hide Inv, Resumed, VoteError;
    if x.Cast? && VoteError(h.slice.room, x.voter).None? {
      CastingIsOpen(h, start, x.voter);
    } else if x.Resume? {
      ResumedCast(h, x.id);
    }
  }

  /** What the tally reads of a voter once their vote is in the log. */
  ghost predicate Counts(start: Slice, cast: seq<Vote>, voter: UserId, choice: Choice) {
    VoteOf(Base(start, cast).room.votes, start.room.round, voter) == Some(choice)
  }

  lemma LastVoteOf(votes: seq<Vote>, v: Vote, round: nat, voter: UserId)
    ensures VoteOf(votes + [v], round, voter) ==
      if v.round == round && v.voter == voter then Some(v.choice) else VoteOf(votes, round, voter)
  {
    assert (votes + [v])[..|votes|] == votes;
  }

  /** An accepted vote is what the tally reads of its voter, and no later one replaces it: its voter cannot vote again. */
  lemma CastCounts(h: Hall, start: Slice, x: Segment, voter: UserId, choice: Choice)
    requires Inv(h, start) && start.room.state.Voting? && Enabled(h, x)
    requires Counts(start, h.cast, voter, choice)
      || (x == Cast(voter, choice) && VoteError(h.slice.room, voter).None?)
    ensures Counts(start, Step(h, x).cast, voter, choice)
  {
    hide Inv, Resumed, ActiveAudience;
    if x.Cast? && VoteError(h.slice.room, x.voter).None? {
      CastingIsOpen(h, start, x.voter);
      var v := Vote(h.slice.room.round, x.voter, x.choice);
      assert start.room.votes + (h.cast + [v]) == (start.room.votes + h.cast) + [v];
      LastVoteOf(start.room.votes + h.cast, v, start.room.round, voter);
    } else if x.Resume? {
      ResumedCast(h, x.id);
    }
    hide VoteOf;
  }

  /**
   A vote accepted at any moment of a run was accepted before the tally, is among the votes the outcome
   counts, and is what the tally reads of its voter.
   */
  lemma {:induction false} AcceptedVotesCount(hs: seq<Hall>, xs: seq<Segment>, start: Slice, i: nat, j: nat)
    requires IsRun(hs, xs, start) && i < j <= |xs|
    requires xs[i].Cast? && VoteError(hs[i].slice.room, xs[i].voter).None?
    ensures hs[i].tallies == 0
    ensures Vote(start.room.round, xs[i].voter, xs[i].choice) in Base(start, hs[j].cast).room.votes
    ensures VoteOf(Base(start, hs[j].cast).room.votes, start.room.round, xs[i].voter) == Some(xs[i].choice)
    decreases j
  {
    hide Inv, Step, Enabled, Begins, VoteError, VoteOf;
    RunKeepsInv(hs, xs, start, i);
    Uncounted(hs[i], start, xs[i].voter);
    RunKeepsInv(hs, xs, start, j - 1);
    StepCasts(hs[j - 1], start, xs[j - 1]);
    if i < j - 1 {
      AcceptedVotesCount(hs, xs, start, i, j - 1);
    }
    CastCounts(hs[j - 1], start, xs[j - 1], xs[i].voter, xs[i].choice);
  }

  lemma Uncounted(h: Hall, start: Slice, voter: UserId)
    requires Inv(h, start) && start.room.state.Voting? && VoteError(h.slice.room, voter).None?
    ensures h.tallies == 0
  {
    VotingIsOpen(h, start);
    hide Inv, Is, ActiveAudience, VoteOf;
  }

  /**
   Once the next phase has begun no call, whenever it was made and however far it has come, changes a
   row or a user, nor can it cancel the timer of that phase.
   */
  lemma LateCallsChangeNothing(hs: seq<Hall>, xs: seq<Segment>, start: Slice, i: nat)
    requires IsRun(hs, xs, start) && i < |xs| && hs[i].outcome.Some? && !xs[i].Proceed?
    ensures hs[i + 1].slice == hs[i].slice && hs[i + 1].cast == hs[i].cast && hs[i + 1].outcome == hs[i].outcome
  {
    RunKeepsInv(hs, xs, start, i);
    LateStep(hs[i], start, xs[i]);
    hide Inv, Step, Begins;
  }

  lemma LateStep(h: Hall, start: Slice, x: Segment)
    requires Inv(h, start) && Enabled(h, x) && h.outcome.Some? && !x.Proceed?
    ensures Step(h, x).slice == h.slice && Step(h, x).cast == h.cast && Step(h, x).outcome == h.outcome
  {
    hide FinalizeVoting, Tally, Keepers, Entered, Is;
    assert Over(h, start) ==> h.slice.(timer := AfterCancel(h.slice.timer, Some(VotingTimer))) == h.slice;
    assert Over(h, start) ==> VoteError(h.slice.room, if x.Cast? then x.voter else 0).Some?;
  }

  lemma {:induction false} VotesStayCountable(c: Config, hs: seq<Hall>, xs: seq<Segment>, start: Slice, i: nat)
    requires IsRun(hs, xs, start) && i <= |xs| && Countable(c, start.room)
    ensures Countable(c, Base(start, hs[i].cast).room)
  {
    hide Inv, Step, Enabled, Countable;
    if i == 0 {
      assert start.room.votes + [] == start.room.votes;
      assert Base(start, hs[0].cast).room == start.room;
    } else {
      VotesStayCountable(c, hs, xs, start, i - 1);
      RunKeepsInv(hs, xs, start, i - 1);
      CastStaysCountable(c, hs[i - 1], start, xs[i - 1]);
    }
  }

  lemma CastStaysCountable(c: Config, h: Hall, start: Slice, x: Segment)
    requires Inv(h, start) && start.room.state.Voting? && Enabled(h, x) && Countable(c, Base(start, h.cast).room)
    ensures Countable(c, Base(start, Step(h, x).cast).room)
  {
    hide Inv, Countable, VoteError, Resumed;
    if x.Cast? && VoteError(h.slice.room, x.voter).None? {
      NextBallot(c, h, start, x.voter, x.choice);
    } else if x.Resume? {
      ResumedCast(h, x.id);
    }
  }

  lemma ResumedCast(h: Hall, id: CallId)
    requires id in h.calls
    ensures Resumed(h, id, h.calls[id]).cast == h.cast && h.tallies <= Resumed(h, id, h.calls[id]).tallies
  {
    hide Tally, Entered, Keepers;
  }

  lemma NextBallot(c: Config, h: Hall, start: Slice, voter: UserId, choice: Choice)
    requires Inv(h, start) && start.room.state.Voting? && Countable(c, Base(start, h.cast).room)
    requires VoteError(h.slice.room, voter).None?
    ensures Countable(c, Base(start, h.cast + [Vote(h.slice.room.round, voter, choice)]).room)
  {
    hide Inv, Countable;
    assert h.slice.room.state.Voting?;
    hide VoteError;
    VotingIsOpen(h, start);
    BallotAdded(c, Base(start, h.cast), voter, choice);
    assert start.room.votes + (h.cast + [Vote(h.slice.room.round, voter, choice)])
        == (start.room.votes + h.cast) + [Vote(h.slice.room.round, voter, choice)];
    assert Base(start, h.cast + [Vote(h.slice.room.round, voter, choice)]).room
        == CastVote(Base(start, h.cast), voter, choice).room;
  }

  /** The phase a race of calls ends in satisfies the room invariant and has its timer running. */
  lemma RacesEndWell(c: Config, hs: seq<Hall>, xs: seq<Segment>, start: Slice, i: nat)
    requires IsRun(hs, xs, start) && i <= |xs| && Countable(c, start.room) && hs[i].outcome.Some?
    ensures Running(c, hs[i].outcome.value.room, hs[i].outcome.value.timer)
  {
    hide Countable, Running, FinalizeVoting, Step, Enabled, Begins;
    TalliedOnce(hs, xs, start, i);
    VotesStayCountable(c, hs, xs, start, i);
    FinalizeKeeps(c, Base(start, hs[i].cast));
  }

  // ----- What other services do afterwards -----

  /** A sound room past its public vote. */
  ghost predicate Later(c: Config, s: Slice) {
    && RoomInv(c, s.room, s.timer)
    && (s.room.state.OneOnOne? || s.room.state.FinalSelection? || s.room.state.Completed?)
  }

  lemma LaterIsBeyond(c: Config, s: Slice)
    requires Later(c, s)
    ensures Beyond(s)
  {
    hide Roster, IsWalk, PhaseInv;
  }

  /** What a race of calls leads to is past the public vote. */
  lemma OutcomeIsLater(c: Config, hs: seq<Hall>, xs: seq<Segment>, start: Slice, i: nat)
    requires IsRun(hs, xs, start) && i <= |xs| && Countable(c, start.room) && hs[i].outcome.Some?
    ensures Later(c, hs[i].outcome.value)
  {
    hide Countable, Running, Step, Enabled, Begins, RoomInv, FinalizeVoting, Tally, Keepers, Entered;
    RacesEndWell(c, hs, xs, start, i);
    TalliedOnce(hs, xs, start, i);
    RunKeepsInv(hs, xs, start, 0);
    VotesStayCountable(c, hs, xs, start, i);
    var b := Base(start, hs[i].cast);
    OutcomeIs(start, hs[i].cast);
    RunningIs(c, FinalizeVoting(b));
    EntersOne(Committing(Tally(Counting(start, hs[i].cast)), AfterElimination(Keepers(Counting(start, hs[i].cast).room))),
      AfterElimination(Keepers(Counting(start, hs[i].cast).room)));
  }

  lemma RunningIs(c: Config, s: Slice)
    requires Running(c, s.room, s.timer)
    ensures RoomInv(c, s.room, s.timer)
  {
  }

  lemma EntersOne(s: Slice, next: RoomState)
    requires s.room.state == next && (next.OneOnOne? || next.Completed?)
    ensures Entered(s, next).room.state == next
  {
  }

  lemma SessionsThere(c: Config, r: Room, timer: Option<Timer>)
    requires RoomInv(c, r, timer)
    ensures r.state.OneOnOne? || r.state.FinalSelection? ==> r.sessions != []
    ensures r.state.Ready? || r.state.Intro? || r.state.Questioning? || r.state.Voting? ==> r.sessions == []
  {
    if r.state.FinalSelection? {
      FinalParts(c, r, timer);
      SessionsDecide(c, r);
      hide Roster, SessionRows;
      assert r.sessions == [] ==> SaidYes(r.sessions) == {};
    }
    hide Roster, IsWalk, AnsweredUpTo, Ballots;
  }

  /**
   The services that act on the room afterwards never bring the public vote back: each of their steps
   leaves the room past it, without a voting timer, which is all that Proceed supposes of them.
   */
  lemma OtherServicesProceed(c: Config, h: Hall, a: Action)
    requires h.outcome.Some? && Later(c, h.slice)
    ensures var t := Protocol.Step(c, h.slice, a).next; Later(c, t) && Enabled(h, Proceed(t))
  {
    hide RoomInv, Running, Remaining, Protocol.Step, Audit.Sound;
    var s := h.slice;
    var reply := Protocol.Step(c, s, a);
    StepKeeps(c, s, a);
    RemainingIsNatural(c, s.room, s.timer);
    RemainingIsNatural(c, reply.next.room, reply.next.timer);
    Audit.EveryRequestExtends(c, s, Audit.Play(a));
    SessionsThere(c, s.room, s.timer);
    SessionsThere(c, reply.next.room, reply.next.timer);
    SomePhase(c, reply.next.room, reply.next.timer);
    LaterIsBeyond(c, reply.next);
  }

  lemma SomePhase(c: Config, r: Room, timer: Option<Timer>)
    requires RoomInv(c, r, timer)
    ensures r.state.Ready? || r.state.Intro? || r.state.Questioning? || r.state.Voting? || r.state.OneOnOne?
         || r.state.FinalSelection? || r.state.Completed?
  {
    hide Roster, IsWalk, TimerFits;
  }
}
