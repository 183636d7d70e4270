/** Whole runs of one room: the invariant, the bound on accepted steps, and progress by timers alone. */
module RoomRuns {
  import opened Domain
  import opened RoomStates
  import opened Protocol
  import opened RoomInvariant
  import opened QuestioningVoting
  import opened SessionSteps

  /** The kind of a registered timer determines the phase its room is in. */
  lemma TimerTellsPhase(c: Config, s: Slice)
    requires RoomInv(c, s.room, s.timer) && s.timer.Some?
    ensures match s.timer.value.kind
      case QuestioningTimer => s.room.state.Questioning?
      case VotingTimer => s.room.state.Voting? && s.timer.value.round == Some(s.room.round)
      case FinalTimer => s.room.state.FinalSelection? && Finalists(s.room) != {}
      case _ => s.room.state.OneOnOne?
  {
    hide Roster, IsWalk, SessionsInv, Finalists;
  }

  lemma ExpireKeeps(c: Config, s: Slice, pick: UserId)
    requires RoomInv(c, s.room, s.timer) && Possible(s, Expire(pick))
    ensures var q := Expired(c, s, pick);
      Advances(c, s.room, q)
  {
    TimerTellsPhase(c, s);
    hide RoomInv, Running, Remaining, QuestioningTimeout, VotingTimeout, QuestionTimeout, AnswerTimeout, VoteTimeout,
      FinalSelectionTimeout, Finalists;
    match s.timer.value.kind
    case QuestioningTimer => QuestioningTimeoutKeeps(c, s);
    case VotingTimer => VotingTimeoutKeeps(c, s);
    case AskTimer => QuestionTimeoutKeeps(c, s);
    case ReplyTimer => AnswerTimeoutKeeps(c, s);
    case JudgeTimer => VoteTimeoutKeeps(c, s);
    case FinalTimer => FinalSelectionTimeoutKeeps(c, s, pick);
  }

  lemma NothingKeepsRoom(c: Config, s: Slice)
    requires RoomInv(c, s.room, s.timer)
    ensures KeepsRoom(c, s, Refused(NotPossible, s))
  {
    hide RoomInv;
  }

  lemma ExpireStep(c: Config, s: Slice, pick: UserId)
    requires RoomInv(c, s.room, s.timer) && Possible(s, Expire(pick))
    ensures KeepsRoom(c, s, Ok(Expired(c, s, pick)))
  {
    hide Roster, IsWalk, TimerFits, PhaseInv, Remaining, Expired;
    ExpireKeeps(c, s, pick);
  }

  /**
   Every player submission and every timer expiry keeps the room invariant.  An accepted one
   strictly lowers the number of remaining steps; a refused one changes no row.
   */
  lemma StepKeeps(c: Config, s: Slice, a: Action)
    requires RoomInv(c, s.room, s.timer)
    ensures KeepsRoom(c, s, Step(c, s, a))
  {
    hide SubmitAnswer, SubmitVote, SubmitSessionQuestion, SubmitSessionAnswer, SubmitSessionVote, CreateMatch, Expired,
      RoomInv, Advances, KeepsRoom, Possible;
    if !Possible(s, a) {
      NothingKeepsRoom(c, s);
    } else {
      match a
      case GiveAnswer(user, text) => SubmitAnswerKeeps(c, s, user, text);
      case GiveVote(user, choice) => SubmitVoteKeeps(c, s, user, choice);
      case Ask(id, user, text) => SubmitSessionQuestionKeeps(c, s, id, user, text);
      case Respond(id, user, text) => SubmitSessionAnswerKeeps(c, s, id, user, text);
      case Judge(id, user, choice) => SubmitSessionVoteKeeps(c, s, id, user, choice);
      case Choose(user, candidate) => CreateMatchKeeps(c, s, user, candidate);
      case Expire(pick) => ExpireStep(c, s, pick);
    }
  }

  /** No room can take another step once Remaining is used up, and Remaining is never negative. */
  lemma RemainingIsNatural(c: Config, r: Room, timer: Option<Timer>)
    requires RoomInv(c, r, timer)
    ensures Remaining(c, r) >= 0
    ensures r.state.Completed? ==> Remaining(c, r) == 0
  {
    hide Roster, IsWalk, SessionsInv, FinalInv;
  }

  /** A rule for which finalist row the query returns first. */
  ghost predicate IsChooser(choose: Room -> UserId) {
    forall r | Finalists(r) != {} :: choose(r) in Finalists(r)
  }

  /** Nobody does anything any more: the room's timers expire one after the other. */
  ghost function Expiries(c: Config, s: Slice, choose: Room -> UserId): Slice
    requires RoomInv(c, s.room, s.timer) && IsChooser(choose)
    decreases Remaining(c, s.room)
  {
    if s.timer.None? then s
    else
      ExpireKeeps(c, s, choose(s.room));
      RemainingIsNatural(c, s.room, s.timer);
      RemainingIsNatural(c, Expired(c, s, choose(s.room)).room, Expired(c, s, choose(s.room)).timer);
      Expiries(c, Expired(c, s, choose(s.room)), choose)
  }

  lemma {:induction false} ExpiriesComplete(c: Config, s: Slice, choose: Room -> UserId)
    requires RoomInv(c, s.room, s.timer) && IsChooser(choose)
    requires s.timer.Some? || s.room.state.Completed?
    ensures Expiries(c, s, choose).room.state.Completed?
    decreases Remaining(c, s.room)
  {
    if s.timer.Some? {
      var q := Expired(c, s, choose(s.room));
      ExpireKeeps(c, s, choose(s.room));
      RemainingIsNatural(c, s.room, s.timer);
      RemainingIsNatural(c, q.room, q.timer);
      hide Expired, RoomInv, Remaining;
      ExpiriesComplete(c, q, choose);
    }
  }

  /**
   No stall: a room that has started and is not over reaches COMPLETED by timer expiries alone
   exactly when its timer is registered.  The only way not to be is a refused final selection,
   which has cancelled the timer before checking anything.
   */
  lemma NoStall(c: Config, s: Slice, choose: Room -> UserId)
    requires RoomInv(c, s.room, s.timer) && IsChooser(choose)
    requires !s.room.state.Ready? && !s.room.state.Intro? && !s.room.state.Completed?
    ensures Expiries(c, s, choose).room.state.Completed? <==> s.timer.Some?
    ensures s.timer.None? ==> s.room.state.FinalSelection?
  {
    if s.timer.Some? {
      ExpiriesComplete(c, s, choose);
    }
  }

  // ----- Checks the code does without -----

  /** handle_answer_timeout with the checks its siblings make: an active session with a question and no answer. */
  function GuardedAnswerTimeout(s: Slice, id: nat): Slice {
    if !HasSession(s.room, id) then s
    else
      var x := s.room.sessions[id - 1];
      if !x.state.Active? || x.question.None? || x.answer.Some? then s
      else WithSession(s, id, x.(answer := Some(NO_RESPONSE), state := SessionState.Voting))
           .(timer := Some(Timer(JudgeTimer, Some(id), None)))
  }

  /** On an arbitrary room the missing checks matter exactly for an unanswered session that is not active or has no question. */
  lemma MissingChecksMatter(s: Slice, id: nat)
    ensures AnswerTimeout(s, id) == GuardedAnswerTimeout(s, id) <==>
      !HasSession(s.room, id) || s.room.sessions[id - 1].answer.Some?
      || (s.room.sessions[id - 1].state.Active? && s.room.sessions[id - 1].question.Some?)
  {
    if HasSession(s.room, id) && AnswerTimeout(s, id) == GuardedAnswerTimeout(s, id) {
      assert AnswerTimeout(s, id).room.sessions[id - 1] == GuardedAnswerTimeout(s, id).room.sessions[id - 1];
    }
  }

  /** In a reachable room they never do: the answer timer only fires for an active session with a question and no answer. */
  lemma AnswerTimeoutNeedsNoChecks(c: Config, s: Slice)
    requires RoomInv(c, s.room, s.timer) && s.timer.Some? && s.timer.value.kind.ReplyTimer?
    ensures s.timer.value.session.Some? && HasSession(s.room, s.timer.value.session.value)
    ensures var id := s.timer.value.session.value; var x := s.room.sessions[id - 1]; var s0 := s.(timer := None);
      && x.state.Active? && x.question.Some? && x.answer.None?
      && AnswerTimeout(s0, id) == GuardedAnswerTimeout(s0, id)
  {
    SessionTimerTells(c, s);
    hide RoomInv, SessionFits;
  }

  /** The lookup of the session in progress never finds two. */
  lemma AtMostOneInProgress(c: Config, s: Slice, i: nat, j: nat)
    requires RoomInv(c, s.room, s.timer) && i < |s.room.sessions| && j < |s.room.sessions|
    requires InProgress(s.room.sessions[i].state) && InProgress(s.room.sessions[j].state)
    ensures i == j
  {
    hide RoomInv, SessionFits, Current;
    OnlyCurrentInProgress(c, s, i + 1);
    OnlyCurrentInProgress(c, s, j + 1);
  }

  /** The final-selection timeout always finds two finalists or more, and its choice is always accepted. */
  lemma FinalTimeoutSucceeds(c: Config, s: Slice, pick: UserId)
    requires RoomInv(c, s.room, s.timer) && s.timer.Some? && s.timer.value.kind.FinalTimer? && Possible(s, Expire(pick))
    ensures |Finalists(s.room)| >= 2
    ensures CreateMatch(s.(timer := None), s.room.challenger, pick).Ok?
    ensures Expired(c, s, pick).room.state.Completed? && Expired(c, s, pick).room.pairing.Some?
  {
    TimerTellsPhase(c, s);
    FinalParts(c, s.room, s.timer);
    assert pick in Finalists(s.room) && pick != s.room.challenger;
    hide RoomInv, Finalists, Roster, SessionRows;
    var s0 := s.(timer := None);
    SettledMatch(Eliminate(Paired(s0, pick), Finalists(s.room) - {pick}));
    hide Settled;
  }

  lemma SettledMatch(s: Slice)
    requires s.room.state.FinalSelection?
    ensures Settled(s).room.state.Completed? && Settled(s).room.pairing == s.room.pairing
  {
  }
}
