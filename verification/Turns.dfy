/** Whose turn it is: exactly which requests a reachable room accepts. */
module Turns {
  import opened Domain
  import opened Ordering
  import opened RoomStates
  import opened Protocol
  import opened RoomInvariant
  import opened QuestioningVoting
  import opened SessionSteps
  import opened RoomRuns
  import Text

  /** The session whose turn it is, under its id. */
  predicate IsCurrent(r: Room, id: nat) {
    r.state.OneOnOne? && id == Current(r.sessions) + 1 && id <= |r.sessions|
  }

  /** The one request the room waits for from this user. */
  ghost predicate ItsTurn(c: Config, s: Slice, a: Action) {
    var r := s.room;
    match a
    case GiveAnswer(user, _) => r.state.Questioning? && user == r.challenger
    case GiveVote(user, _) => r.state.Voting? && user in Panel(r) && VoteOf(r.votes, r.round, user).None?
    case Ask(id, user, text) =>
      && IsCurrent(r, id) && r.sessions[id - 1].state.Active? && r.sessions[id - 1].question.None?
      && user == r.sessions[id - 1].audience && Text.Strip(text) != "" && |Text.Strip(text)| <= c.questionMax
    case Respond(id, user, text) =>
      && IsCurrent(r, id) && r.sessions[id - 1].state.Active? && r.sessions[id - 1].question.Some?
      && user == r.challenger && Text.Strip(text) != ""
    case Judge(id, user, _) =>
      IsCurrent(r, id) && r.sessions[id - 1].state.Voting? && user == r.sessions[id - 1].audience
    case Choose(user, candidate) => r.state.FinalSelection? && user == r.challenger && candidate in Finalists(r)
    case Expire(_) => Possible(s, a)
  }

  lemma AnswerTurn(c: Config, s: Slice, user: UserId, text: string)
    requires RoomInv(c, s.room, s.timer)
    ensures SubmitAnswer(c, s, user, text).Ok? <==> ItsTurn(c, s, GiveAnswer(user, text))
  {
    if s.room.state.Questioning? {
      AnswersSoFar(c, s.room);
    }
    hide IsWalk, HasAnswer, AnsweredUpTo;
  }

  lemma VoteTurn(c: Config, s: Slice, user: UserId, choice: Choice)
    requires RoomInv(c, s.room, s.timer)
    ensures SubmitVote(s, user, choice).Ok? <==> ItsTurn(c, s, GiveVote(user, choice))
  {
    hide IsWalk, VoteOf, AnsweredUpTo, Ballots, FinalizeVoting, SessionsInv;
    if s.room.state.Voting? {
      assert ActiveAudience(s.room) == Panel(s.room);
    }
  }

  /** A session that still takes anything is the current one, and its columns say how far it is. */
  lemma OpenSession(c: Config, s: Slice, id: nat)
    requires RoomInv(c, s.room, s.timer) && HasSession(s.room, id)
    ensures InProgress(s.room.sessions[id - 1].state) ==>
      && IsCurrent(s.room, id) && !s.room.sessions[id - 1].state.Answered?
      && (s.room.sessions[id - 1].state.Active? ==> s.room.sessions[id - 1].answer.None?)
      && (s.room.sessions[id - 1].state.Voting? ==> s.room.sessions[id - 1].vote.None?)
  {
    if InProgress(s.room.sessions[id - 1].state) {
      OnlyCurrentInProgress(c, s, id);
    }
    hide RoomInv;
  }

  lemma SessionChallenger(c: Config, s: Slice, id: nat)
    requires RoomInv(c, s.room, s.timer) && IsCurrent(s.room, id)
    ensures s.room.sessions[id - 1].challenger == s.room.challenger
  {
    InSessions(c, s.room, s.timer);
    hide RoomInv, Roster, Listing, SessionFits, Benched, Ballots, AnsweredUpTo, Remaining;
  }

  lemma AskTurn(c: Config, s: Slice, id: nat, user: UserId, text: string)
    requires RoomInv(c, s.room, s.timer)
    ensures SubmitSessionQuestion(c, s, id, user, text).Ok? <==> ItsTurn(c, s, Ask(id, user, text))
  {
    hide RoomInv, Text.Strip;
    if HasSession(s.room, id) {
      OpenSession(c, s, id);
    }
  }

  lemma ReplyTurn(c: Config, s: Slice, id: nat, user: UserId, text: string)
    requires RoomInv(c, s.room, s.timer)
    ensures SubmitSessionAnswer(s, id, user, text).Ok? <==> ItsTurn(c, s, Respond(id, user, text))
  {
    hide RoomInv, Text.Strip;
    if HasSession(s.room, id) {
      OpenSession(c, s, id);
      if IsCurrent(s.room, id) {
        SessionChallenger(c, s, id);
      }
    }
  }

  lemma JudgeTurn(c: Config, s: Slice, id: nat, user: UserId, choice: Choice)
    requires RoomInv(c, s.room, s.timer)
    ensures SubmitSessionVote(s, id, user, choice).Ok? <==> ItsTurn(c, s, Judge(id, user, choice))
  {
    hide RoomInv, ActivateNextSession, Judged;
    if HasSession(s.room, id) {
      OpenSession(c, s, id);
    }
  }

  lemma ChooseTurn(c: Config, s: Slice, user: UserId, candidate: UserId)
    requires RoomInv(c, s.room, s.timer)
    ensures CreateMatch(s, user, candidate).Ok? <==> ItsTurn(c, s, Choose(user, candidate))
  {
    hide RoomInv, Settled, Finalists, Roster, IsWalk, SessionRows, AllOver, Remaining, Paired, Eliminate;
    if s.room.state.FinalSelection? {
      FinalParts(c, s.room, s.timer);
      ChallengerIsNoFinalist(c, s.room);
    }
  }

  /**
   A reachable room accepts a request exactly when it is the one the room waits for: from the
   challenger in QUESTIONING, from whoever of the panel has not voted in VOTING, from the one whose
   turn it is in the current session, and from the challenger about a finalist at the end.  The
   duplicate and half-finished cases the services also test for cannot come up otherwise.
   */
  lemma TurnsAreExact(c: Config, s: Slice, a: Action)
    requires RoomInv(c, s.room, s.timer)
    ensures Step(c, s, a).Ok? <==> ItsTurn(c, s, a)
  {
    hide RoomInv, ItsTurn, SubmitAnswer, SubmitVote, SubmitSessionQuestion, SubmitSessionAnswer, SubmitSessionVote,
      CreateMatch, Expired;
    match a
    case GiveAnswer(user, text) => AnswerTurn(c, s, user, text);
    case GiveVote(user, choice) => VoteTurn(c, s, user, choice);
    case Ask(id, user, text) => AskTurn(c, s, id, user, text);
    case Respond(id, user, text) => ReplyTurn(c, s, id, user, text);
    case Judge(id, user, choice) => JudgeTurn(c, s, id, user, choice);
    case Choose(user, candidate) => ChooseTurn(c, s, user, candidate);
    case Expire(pick) => ExpireTurn(c, s, pick);
  }

  lemma ExpireTurn(c: Config, s: Slice, pick: UserId)
    ensures ItsTurn(c, s, Expire(pick)) <==> Possible(s, Expire(pick))
  {
  }

  // ----- What a choice does to the room's progress -----

  lemma RunsOrIsOver(c: Config, r: Room, t: Slice)
    requires Advances(c, r, t)
    ensures t.timer.Some? || t.room.state.Completed?
  {
  }

  /** An accepted choice leaves a room with a timer or over; a refused one leaves it where it was, without a timer. */
  lemma ChoiceLeaves(c: Config, s: Slice, user: UserId, candidate: UserId)
    requires RoomInv(c, s.room, s.timer) && s.room.state.FinalSelection? && s.timer.Some?
    ensures var reply := Step(c, s, Choose(user, candidate)); var t := reply.next;
      && RoomInv(c, t.room, t.timer)
      && (reply.Ok? <==> user == s.room.challenger && candidate in Finalists(s.room))
      && (if reply.Ok? then t.timer.Some? || t.room.state.Completed? else t.timer.None? && t.room.state.FinalSelection?)
  {
    hide RoomInv, Advances, Finalists, CreateMatch, Remaining, Roster, SessionRows, AllOver;
    ChooseTurn(c, s, user, candidate);
    CreateMatchKeeps(c, s, user, candidate);
    FinalParts(c, s.room, s.timer);
    var reply := CreateMatch(s, user, candidate);
    if reply.Ok? {
      RunsOrIsOver(c, s.room, reply.next);
    }
  }

  /**
   Exactly which choices leave a room able to finish by itself: a request to choose in FINAL_SELECTION
   cancels the timer before it is checked, so that afterwards the timers alone complete the room if and
   only if the request came from the challenger and named a finalist.
   */
  lemma ChoiceFinishesOrStalls(c: Config, s: Slice, user: UserId, candidate: UserId, choose: Room -> UserId)
    requires RoomInv(c, s.room, s.timer) && s.room.state.FinalSelection? && s.timer.Some? && IsChooser(choose)
    ensures var t := Step(c, s, Choose(user, candidate)).next; RoomInv(c, t.room, t.timer)
    ensures Expiries(c, Step(c, s, Choose(user, candidate)).next, choose).room.state.Completed?
      <==> user == s.room.challenger && candidate in Finalists(s.room)
  {
    hide RoomInv, Running, Finalists, Step, Expired;
    var t := Step(c, s, Choose(user, candidate)).next;
    ChoiceLeaves(c, s, user, candidate);
    if t.timer.Some? || t.room.state.Completed? {
      ExpiriesComplete(c, t, choose);
    }
  }


  /** The input that shows it: a challenger who chooses themselves is refused, and the room never finishes by itself. */
  lemma ChoosingOneselfStalls(c: Config, s: Slice, choose: Room -> UserId)
    requires RoomInv(c, s.room, s.timer) && s.room.state.FinalSelection? && s.timer.Some? && IsChooser(choose)
    ensures var reply := Step(c, s, Choose(s.room.challenger, s.room.challenger));
      && reply.Refused? && RoomInv(c, reply.next.room, reply.next.timer)
      && Expiries(c, reply.next, choose).room.state.FinalSelection?
  {
    hide RoomInv, Expired, Finalists, Step;
    ChoiceLeaves(c, s, s.room.challenger, s.room.challenger);
    FinalParts(c, s.room, s.timer);
    ChallengerIsNoFinalist(c, s.room);
    hide Roster, SessionRows, AllOver, Remaining;
  }
}
