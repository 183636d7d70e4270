/** What the phases of a room add up to: its answers, its eliminations and its outcome. */
module Outcomes {
  import opened Domain
  import opened Ordering
  import opened RoomStates
  import opened Protocol
  import opened RoomInvariant
  import opened QuestioningVoting
  import opened SessionSteps

  // ----- Answers -----

  /**
   A room that reaches VOTING, by its last answer or by the questioning timeout, holds exactly one
   answer for each position, and the answers given before are still there: only placeholders are added.
   */
  lemma AnswersAreComplete(c: Config, s: Slice, a: Action)
    requires RoomInv(c, s.room, s.timer) && s.room.state.Questioning?
    requires Step(c, s, a).Ok? && Step(c, s, a).next.room.state.Voting?
    ensures var r := s.room; var q := Step(c, s, a).next.room;
      && AnsweredUpTo(q, c.rounds) && r.answers <= q.answers
      && (a.Expire? ==> forall i | |r.answers| <= i < |q.answers| :: q.answers[i].text == NO_RESPONSE)
      && (!a.Expire? ==> a.GiveAnswer? && r.round == c.rounds
                         && q.answers == r.answers + [Domain.Answer(r.questions[r.round - 1], r.challenger, a.text)])
  {
    hide RoomInv, SubmitAnswer, QuestioningTimeout, AnsweredUpTo;
    match a
    case GiveAnswer(user, text) => LastAnswer(c, s, user, text);
    case Expire(pick) =>
      QuestioningHasItsTimer(c, s.room, s.timer);
      QuestioningTimeoutFills(c, s);
    case Choose(_, _) =>
    case _ =>
  }

  lemma LastAnswer(c: Config, s: Slice, user: UserId, text: string)
    requires RoomInv(c, s.room, s.timer) && s.room.state.Questioning?
    requires SubmitAnswer(c, s, user, text).Ok? && SubmitAnswer(c, s, user, text).next.room.state.Voting?
    ensures var r := s.room; var q := SubmitAnswer(c, s, user, text).next.room;
      && r.round == c.rounds && AnsweredUpTo(q, c.rounds)
      && q.answers == r.answers + [Domain.Answer(r.questions[r.round - 1], r.challenger, text)]
  {
    hide IsWalk, HasAnswer, AllActive, Distinct;
    assert QuestioningInv(c, s.room);
  }

  lemma QuestioningHasItsTimer(c: Config, r: Room, timer: Option<Timer>)
    requires RoomInv(c, r, timer) && r.state.Questioning?
    ensures timer == Some(Timer(QuestioningTimer, None, None))
  {
    hide Roster, IsWalk, PhaseInv;
  }

  lemma QuestioningTimeoutFills(c: Config, s: Slice)
    requires RoomInv(c, s.room, s.timer) && s.room.state.Questioning?
    ensures var r := s.room; var q := QuestioningTimeout(c, s.(timer := None)).room;
      && AnsweredUpTo(q, c.rounds)
      && r.answers <= q.answers && forall i | |r.answers| <= i < |q.answers| :: q.answers[i].text == NO_RESPONSE
  {
    hide Fillers, AnsweredBy, AskedQuestions, IsWalk, AllActive;
    FillersAre(c, s.room);
  }

  // ----- Elimination -----

  /** The rows and users after the elimination commit of a room whose public vote is open. */
  lemma EliminationPartition(c: Config, s: Slice)
    requires Countable(c, s.room) && s.timer.None? && s.room.members.Keys <= s.users.Keys
    ensures var t := Tally(Moved(s, RoomState.Elimination)); var yes := YesVoters(s.room);
      && (forall u | u in Panel(s.room) ::
           var m := t.room.members[u];
           if u in yes then m.status.Active? && m.leftAt.None? && t.users[u] == s.users[u]
           else m.status.Eliminated? && m.leftAt.Some? && t.users[u].state.Waiting?)
      && (var host := s.room.challenger;
          var m := t.room.members[host];
          if yes != {} then m.leftAt.None? && t.users[host] == s.users[host]
          else m.status.Eliminated? && m.leftAt.Some? && t.users[host].state.Waiting?)
  {
    var s1 := Moved(s, RoomState.Elimination);
    assert Panel(s1.room) == Panel(s.room) && YesVoters(s1.room) == YesVoters(s.room);
    assert Roster(c, s1.room);
    TallyRows(c, s1);
  }

  /** A committed tally leaves nothing for a second tally to do. */
  lemma TallyAgain(t: Slice)
    requires Keepers(t.room) == ActiveAudience(t.room)
    requires forall u | u in Keepers(t.room) :: t.room.members[u].status.Active?
    requires Keepers(t.room) == {} && t.room.challenger in t.room.members ==> t.room.members[t.room.challenger].leftAt.Some?
    ensures Tally(t) == t
  {
    assert ActiveAudience(t.room) - Keepers(t.room) == {};
    assert WithStatus(t.room.members, Keepers(t.room), Status.Active) == t.room.members;
    assert t.(room := t.room.(members := t.room.members)) == t;
    EliminateNobody(t);
    hide Eliminate, WithStatus, Keepers;
  }

  /** Finalization started again from a tally that was already committed changes no row of it and moves on alike. */
  lemma FinalizeResumes(c: Config, s: Slice)
    requires Countable(c, s.room) && s.timer.None?
    ensures var t := Tally(Moved(s, RoomState.Elimination));
      && Keepers(t.room) == YesVoters(s.room)
      && Tally(t) == t
      && FinalizeVoting(t) == FinalizeVoting(s)
  {
    hide Countable, Tally, Keepers, ActiveAudience, YesVoters, Roster, IsWalk, Tallied, Emptied;
    var t := Tally(Moved(s, RoomState.Elimination));
    TallyKeeps(c, s);
    FinalizeUnfolds(c, s);
    SurvivorsKept(c, s);
    TallyAgain(t);
    assert FinalizeVoting(t) == Moved(t, AfterElimination(Keepers(t.room)));
  }

  lemma SurvivorsKept(c: Config, s: Slice)
    requires Countable(c, s.room) && s.timer.None?
    ensures var t := Tally(Moved(s, RoomState.Elimination));
      && Keepers(t.room) == ActiveAudience(t.room) == YesVoters(s.room)
      && (forall u | u in Keepers(t.room) :: t.room.members[u].status.Active?)
      && t.room.challenger in t.room.members
      && (Keepers(t.room) == {} ==> t.room.members[t.room.challenger].leftAt.Some?)
  {
    var s1 := Moved(s, RoomState.Elimination);
    assert Panel(s1.room) == Panel(s.room) && YesVoters(s1.room) == YesVoters(s.room);
    assert Roster(c, s1.room);
    TallyRows(c, s1);
    var t := Tally(s1);
    assert YesVoters(t.room) == ActiveAudience(t.room);
    hide Tally;
    assert Keepers(t.room) == YesVoters(t.room);
  }

  // ----- The end of the one-on-one phase -----

  lemma SplitCount<T>(s: set<T>, t: set<T>)
    requires t <= s
    ensures |t| + |s - t| == |s|
  {
    assert s == t + (s - t);
    assert |t + (s - t)| == |t| + |s - t|;
  }

  /** When every session is over the finalists are the session Yes voters, and with the eliminated they add up to the sessions. */
  lemma FinalistsAddUp(c: Config, r: Room)
    requires Roster(c, r) && SessionRows(c, r) && AllOver(r.sessions)
    ensures var yes := SaidYes(r.sessions);
      && Finalists(r) == yes <= YesVoters(r)
      && |yes| + |YesVoters(r) - yes| == |r.sessions|
      && (forall u | u in YesVoters(r) - yes :: u in r.members && r.members[u].status.Eliminated?)
  {
    SessionsDecide(c, r);
    RollIsBijection(r);
    assert YesVoters(r) <= Panel(r) <= r.members.Keys;
    hide YesVoters, SaidYes, Finalists, Panel, AllOver, Roster, SessionRows;
    SplitCount(YesVoters(r), SaidYes(r.sessions));
  }

  /** In every phase and in every session, a vote comes only after an answer and an answer only after a question. */
  lemma ColumnsInOrder(c: Config, r: Room, timer: Option<Timer>, i: nat)
    requires RoomInv(c, r, timer) && i < |r.sessions|
    ensures Columns(r.sessions[i])
  {
    if r.state.OneOnOne? || r.state.FinalSelection? {
      SessionRowsOf(c, r, timer);
      EachSessionFits(c, r);
      FittingColumns(r.sessions[i], r.members[r.sessions[i].audience]);
    } else if r.state.Completed? {
      EndOf(c, r, timer);
    }
    hide Roster, IsWalk, SessionsInv, Concluded;
  }

  lemma SessionRowsOf(c: Config, r: Room, timer: Option<Timer>)
    requires RoomInv(c, r, timer) && (r.state.OneOnOne? || r.state.FinalSelection?)
    ensures Roster(c, r) && SessionRows(c, r)
  {
    hide Roster, IsWalk, SessionRows, Finalists;
  }

  /** A completed room, taken apart. */
  lemma EndOf(c: Config, r: Room, timer: Option<Timer>)
    requires RoomInv(c, r, timer) && r.state.Completed?
    ensures Roster(c, r) && OverInv(c, r) && Concluded(r)
    ensures forall x | x in r.sessions :: Columns(x) && x.state.Completed?
  {
    hide Roster, IsWalk, SessionRoll, Ballots, Columns;
  }

  /** Of the audience only the matched one is left, as SELECTED. */
  ghost predicate PanelEnded(r: Room) {
    forall u | u in Panel(r) :: (
      r.members[u].status == if r.pairing.Some? && u == r.pairing.value.audience then Selected else Status.Eliminated)
  }

  /**
   Every completed room ended as its votes say: each survivor of the public vote had exactly one
   session, it has a match exactly when somebody said Yes in their session, the match is with one who
   did, and when only one did, with that one.
   */
  lemma EndFollowsVotes(c: Config, r: Room, timer: Option<Timer>)
    requires RoomInv(c, r, timer) && r.state.Completed?
    ensures var yes := SaidYes(r.sessions);
      && yes <= YesVoters(r) && |r.sessions| == |YesVoters(r)|
      && (r.pairing.Some? <==> yes != {})
      && (r.pairing.Some? ==> r.pairing.value.audience in yes)
      && (forall u | yes == {u} :: r.pairing.Some? && r.pairing.value.audience == u)
      && PanelEnded(r)
  {
    hide RoomInv;
    EndOf(c, r, timer);
    RollIsBijection(r);
    PanelAtEnd(c, r);
    hide Roster, SessionRoll, Ballots, OverInv, YesVoters, Columns;
  }

  lemma PanelAtEnd(c: Config, r: Room)
    requires Roster(c, r) && OverInv(c, r)
    ensures PanelEnded(r)
  {
    hide Concluded, AnsweredUpTo, Distinct;
  }

  /** Somebody the room has released: out of the room and waiting. */
  ghost predicate Released(s: Slice, u: UserId) {
    && u in s.room.members && s.room.members[u].status.Eliminated?
    && u in s.users && s.users[u].state.Waiting?
  }

  /** Their number alone decides between a final selection, an immediate match and a release of everybody. */
  lemma OutcomeByCount(c: Config, s: Slice)
    requires AfterSession(c, s) && Current(s.room.sessions) == |s.room.sessions|
    requires s.room.members.Keys <= s.users.Keys
    ensures var yes := SaidYes(s.room.sessions); var q := ActivateNextSession(s);
      if |yes| > 1 then q.room.state.FinalSelection? && q.room.pairing.None? && q.room.members == s.room.members
      else if |yes| == 1 then q.room.state.Completed? && q.room.pairing.Some? && q.room.pairing.value.audience in yes
      else q.room.state.Completed? && q.room.pairing.None? && Released(q, s.room.challenger)
  {
    hide AfterSession, ActivateNextSession, CloseSessions, Running, Remaining, SaidYes, YesVoters, Finalists, Roster,
      SessionRows, AllOver, Released, Current;
    var yes := SaidYes(s.room.sessions);
    var s0 := s.(timer := None);
    ActivateCloses(c, s);
    BeforeClosing(c, s);
    SessionsDecide(c, s.room);
    if |yes| > 1 {
      CloseWithMany(c, s0);
      ClosePairsNobody(c, s0);
    } else if yes == {} {
      CloseWithNone(c, s0);
      ChallengerReleased(s0);
    } else {
      var u :| u in yes;
      assert |yes - {u}| == 0;
      assert yes == {u};
      CloseWithOne(c, s0, u);
    }
  }

  lemma BeforeClosing(c: Config, s: Slice)
    requires AfterSession(c, s)
    ensures AfterSession(c, s.(timer := None)) && Roster(c, s.room) && SessionRows(c, s.room)
    ensures s.room.challenger in s.room.members && s.room.pairing.None? && s.room.state.OneOnOne?
  {
    TimerAside(c, s);
    LastParts(c, s);
    hide IsWalk, SessionRows, BetweenSessions;
  }

  lemma ChallengerReleased(s: Slice)
    requires s.room.challenger in s.room.members && s.room.challenger in s.users
    ensures Released(Moved(Eliminate(s, {s.room.challenger}), RoomState.Completed), s.room.challenger)
  {
  }

  lemma ClosePairsNobody(c: Config, s: Slice)
    requires |Finalists(s.room)| > 1 && s.room.state.OneOnOne?
    ensures CloseSessions(s).room.pairing == s.room.pairing
  {
    hide Finalists;
  }

  // ----- The shortcut for a single finalist -----

  lemma FinalistsStay(r: Room, q: Room)
    requires q.members == r.members
    ensures Finalists(q) == Finalists(r)
  {
    assert ActiveAudience(q) == ActiveAudience(r);
  }

  /** Leaving ONE_ON_ONE cancels whatever timer there is. */
  lemma SettledForgetsTimer(s: Slice)
    requires s.room.state.OneOnOne?
    ensures Settled(s) == Settled(s.(timer := None))
  {
  }

  /**
   Matching the only finalist directly gives the same match, participants, users, match room, timer
   and state as entering FINAL_SELECTION and choosing that finalist: only the history differs, by
   the one move through FINAL_SELECTION.
   */
  lemma ShortcutRefinesFinalSelection(c: Config, s: Slice, u: UserId)
    requires s.room.state.OneOnOne? && Roster(c, s.room) && s.room.pairing.None?
    requires Finalists(s.room) == {u}
    ensures var long := CreateMatch(Transition(s, RoomState.FinalSelection).next, s.room.challenger, u);
      var short := CreateMatchForSingleSurvivor(s, u);
      var h := s.room.history;
      && long.Ok?
      && long.next == short.(room := short.room.(history := long.next.room.history))
      && short.room.history == h + [Move(RoomState.OneOnOne, RoomState.Matched)] + [Move(RoomState.Matched, RoomState.Completed)]
      && long.next.room.history == h + [Move(RoomState.OneOnOne, RoomState.FinalSelection)]
           + [Move(RoomState.FinalSelection, RoomState.Matched)] + [Move(RoomState.Matched, RoomState.Completed)]
  {
    hide WithStatus, WithState, Dismissed, Roster, Settled, Finalists;
    var f := Transition(s, RoomState.FinalSelection).next;
    ChallengerIsNoFinalist(c, s.room);
    FinalistsStay(s.room, f.room);
    var f0 := f.(timer := None);
    assert Finalists(f.room) - {u} == {};
    EliminateNobody(Paired(f0, u));
    SettledIs(Paired(f0, u));
    SettledIs(Paired(s, u).(timer := None));
    SettledForgetsTimer(Paired(s, u));
    hide Eliminate;
  }
}
