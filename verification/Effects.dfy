/** How the steps of a room move its participants' users between states. */
module Effects {
  import opened Domain
  import opened RoomStates
  import opened Protocol
  import opened RoomInvariant
  import opened QuestioningVoting
  import opened SessionSteps
  import opened RoomRuns
  import Text

  predicate Open(r: Room, u: UserId) {
    u in r.members && r.members[u].leftAt.None?
  }

  /** The users table after a room's rows went from r to q: the released wait, the matched are matched. */
  function UsersAfter(users: map<UserId, User>, r: Room, q: Room): map<UserId, User> {
    map u | u in users ::
      if Open(r, u) && !Open(q, u) then users[u].(state := UserState.Waiting)
      else if Open(q, u) && q.members[u].status.Selected? && !(Open(r, u) && r.members[u].status.Selected?)
      then users[u].(state := UserState.Matched)
      else users[u]
  }

  /** A fresh match and its match room, before any contact. */
  predicate IsFresh(p: Pairing) {
    p.status.Created? && p.state.WaitingForContacts? && p.contacts == []
  }

  /** Rows never reopen, selections never lapse, and a match is made at most once, together with its selections. */
  ghost predicate Forward(r: Room, q: Room) {
    && SameRoster(r, q)
    && (forall u | u in r.members && r.members[u].leftAt.Some? :: q.members[u].leftAt.Some?)
    && (forall u | u in r.members && r.members[u].status.Selected? :: q.members[u] == r.members[u])
    && (r.pairing.Some? ==> q.pairing == r.pairing)
    && (r.pairing.None? && q.pairing.Some? ==> IsFresh(q.pairing.value))
  }

  ghost predicate Effect(s: Slice, t: Slice) {
    Forward(s.room, t.room) && t.users == UsersAfter(s.users, s.room, t.room) && t.now == s.now
  }

  lemma ForwardComposes(r: Room, q: Room, p: Room)
    requires Forward(r, q) && Forward(q, p)
    ensures Forward(r, p)
  {
  }

  lemma UserMovesOnce(users: map<UserId, User>, r: Room, q: Room, p: Room, u: UserId)
    requires Forward(r, q) && Forward(q, p) && u in users
    ensures UsersAfter(UsersAfter(users, r, q), q, p)[u] == UsersAfter(users, r, p)[u]
  {
  }

  lemma EffectComposes(s: Slice, t: Slice, v: Slice)
    requires Effect(s, t) && Effect(t, v)
    ensures Effect(s, v)
  {
    ForwardComposes(s.room, t.room, v.room);
    forall u | u in s.users ensures v.users[u] == UsersAfter(s.users, s.room, v.room)[u] {
      UserMovesOnce(s.users, s.room, t.room, v.room, u);
    }
    assert v.users.Keys == UsersAfter(s.users, s.room, v.room).Keys;
    hide Forward;
    assert v.users == UsersAfter(s.users, s.room, v.room);
  }

  /** A step that touches no participant row, no user and no match. */
  predicate Quiet(s: Slice, t: Slice) {
    && t.room.members == s.room.members && t.room.pairing == s.room.pairing && t.users == s.users && t.now == s.now
    && t.room.challenger == s.room.challenger && t.room.questions == s.room.questions
  }

  lemma QuietEffect(s: Slice, t: Slice)
    requires Quiet(s, t)
    ensures Effect(s, t)
  {
    assert t.users == UsersAfter(s.users, s.room, t.room);
  }

  lemma EliminateEffect(s: Slice, who: set<UserId>)
    requires forall u | u in who :: Open(s.room, u) && !s.room.members[u].status.Selected?
    ensures Effect(s, Eliminate(s, who))
  {
    var t := Eliminate(s, who);
    assert t.users == UsersAfter(s.users, s.room, t.room);
  }

  /** A status other than SELECTED given to open rows moves nobody. */
  lemma StatusEffect(s: Slice, who: set<UserId>, status: Status)
    requires !status.Selected?
    requires forall u | u in who :: Open(s.room, u) && !s.room.members[u].status.Selected?
    ensures Effect(s, s.(room := s.room.(members := WithStatus(s.room.members, who, status))))
  {
    var t := s.(room := s.room.(members := WithStatus(s.room.members, who, status)));
    assert t.users == UsersAfter(s.users, s.room, t.room);
  }

  lemma PairedEffect(s: Slice, u: UserId)
    requires s.room.pairing.None? && Open(s.room, s.room.challenger) && Open(s.room, u)
    requires !s.room.members[s.room.challenger].status.Selected? && !s.room.members[u].status.Selected?
    ensures Effect(s, Paired(s, u))
  {
    var t := Paired(s, u);
    assert t.users == UsersAfter(s.users, s.room, t.room);
  }

  lemma MovedEffect(s: Slice, target: RoomState)
    ensures Quiet(s, Moved(s, target)) && Effect(s, Moved(s, target))
  {
    assert Quiet(s, Moved(s, target));
    QuietEffect(s, Moved(s, target));
  }

  lemma PanelStays(s: Slice, t: Slice)
    requires Effect(s, t)
    ensures Panel(t.room) == Panel(s.room)
  {
  }

  // ----- The effect of each step -----

  lemma FinalizeEffect(c: Config, s: Slice)
    requires Countable(c, s.room) && (s.timer.None? || s.timer.value.kind.VotingTimer?)
    ensures Effect(s, FinalizeVoting(s))
  {
    hide FinalizeVoting, Tally, Effect, Moved, Quiet, YesVoters;
    FinalizeUnfolds(c, s);
    var s0 := s.(timer := None);
    var s1 := Moved(s0, RoomState.Elimination);
    TallyEffectFrom(c, s0);
    QuietTimer(s);
    MovedEffect(s0, RoomState.Elimination);
    EffectComposes(s, s0, s1);
    EffectComposes(s, s1, Tally(s1));
    MovedEffect(Tally(s1), AfterElimination(YesVoters(s.room)));
    EffectComposes(s, Tally(s1), FinalizeVoting(s));
  }

  lemma QuietTimer(s: Slice)
    ensures Effect(s, s.(timer := None))
  {
    QuietEffect(s, s.(timer := None));
  }

  lemma TallyEffectFrom(c: Config, s: Slice)
    requires Countable(c, s.room)
    ensures Effect(Moved(s, RoomState.Elimination), Tally(Moved(s, RoomState.Elimination)))
  {
    hide Effect, Tally, IsWalk, Ballots, AnsweredUpTo;
    assert Panel(Moved(s, RoomState.Elimination).room) == Panel(s.room);
    TallyEffect(c, Moved(s, RoomState.Elimination));
  }

  lemma TallyEffect(c: Config, s: Slice)
    requires Roster(c, s.room) && AllActive(s.room)
    ensures Effect(s, Tally(s))
  {
    var keep := Keepers(s.room);
    StatusEffect(s, keep, Status.Active);
    var t := s.(room := s.room.(members := WithStatus(s.room.members, keep, Status.Active)));
    var out := ActiveAudience(s.room) - keep;
    EliminateEffect(t, out);
    EliminateEffect(t, out + {s.room.challenger});
    EffectComposes(s, t, Tally(s));
  }

  lemma SettledEffect(s: Slice)
    requires s.room.state.OneOnOne? || s.room.state.FinalSelection?
    ensures Effect(s, Settled(s))
  {
    var t := Moved(s, RoomState.Matched);
    MovedEffect(s, RoomState.Matched);
    MovedEffect(t, RoomState.Completed);
    EffectComposes(s, t, Moved(t, RoomState.Completed));
    hide Effect;
  }

  /** Matching a finalist and sending the other finalists home. */
  lemma PairAndDismissEffect(s: Slice, u: UserId)
    requires s.room.pairing.None? && Open(s.room, s.room.challenger) && u in Finalists(s.room)
    requires s.room.members[s.room.challenger].status.Active?
    requires s.room.state.OneOnOne? || s.room.state.FinalSelection?
    ensures Effect(s, Settled(Eliminate(Paired(s, u), Finalists(s.room) - {u})))
  {
    var p := Paired(s, u);
    var t := Eliminate(p, Finalists(s.room) - {u});
    PairedEffect(s, u);
    EliminateEffect(p, Finalists(s.room) - {u});
    assert t.room.state == s.room.state;
    hide Effect, Finalists, Settled;
    EffectComposes(s, p, t);
    SettledEffect(t);
    EffectComposes(s, t, Settled(t));
  }

  lemma OpenChallenger(c: Config, r: Room)
    requires Roster(c, r) && SessionRows(c, r)
    ensures Open(r, r.challenger) && r.members[r.challenger].status.Active? && r.pairing.None?
  {
    hide SessionRoll, Ballots, AnsweredUpTo;
  }

  lemma CloseManyEffect(s: Slice)
    requires s.room.state.OneOnOne? && |Finalists(s.room)| > 1
    ensures Effect(s, CloseSessions(s))
  {
    MovedEffect(s, RoomState.FinalSelection);
    hide Finalists, Effect, Moved;
  }

  lemma CloseNoneEffect(c: Config, s: Slice)
    requires AfterSession(c, s) && AllOver(s.room.sessions) && s.timer.None?
    requires Finalists(s.room) == {} && Open(s.room, s.room.challenger) && s.room.members[s.room.challenger].status.Active?
    ensures Effect(s, CloseSessions(s))
  {
    CloseWithNone(c, s);
    hide AfterSession, CloseSessions, Running, Remaining, AllOver;
    var t := Eliminate(s, {s.room.challenger});
    EliminateEffect(s, {s.room.challenger});
    MovedEffect(t, RoomState.Completed);
    hide Effect, Moved, Eliminate;
    EffectComposes(s, t, Moved(t, RoomState.Completed));
  }

  lemma CloseOneEffect(c: Config, s: Slice, u: UserId)
    requires AfterSession(c, s) && AllOver(s.room.sessions) && s.timer.None?
    requires Finalists(s.room) == {u} && Open(s.room, s.room.challenger) && s.room.members[s.room.challenger].status.Active?
    requires s.room.pairing.None? && s.room.state.OneOnOne?
    ensures Effect(s, CloseSessions(s))
  {
    CloseWithOne(c, s, u);
    hide AfterSession, CloseSessions, Running, Remaining, Effect, AllOver, Finalists;
    PairAndDismissEffect(s, u);
  }

  lemma CloseEffect(c: Config, s: Slice)
    requires AfterSession(c, s) && AllOver(s.room.sessions) && s.timer.None?
    ensures Effect(s, CloseSessions(s))
  {
    OpenChallenger(c, s.room);
    assert s.room.state.OneOnOne?;
    hide AfterSession, CloseSessions, Effect, AllOver, Finalists;
    if |Finalists(s.room)| > 1 {
      CloseManyEffect(s);
    } else if Finalists(s.room) == {} {
      CloseNoneEffect(c, s);
    } else {
      var u :| u in Finalists(s.room);
      assert |Finalists(s.room) - {u}| == 0;
      assert Finalists(s.room) == {u};
      CloseOneEffect(c, s, u);
    }
  }

  lemma ActivateEffect(c: Config, s: Slice)
    requires AfterSession(c, s)
    ensures Effect(s, ActivateNextSession(s))
  {
    if Current(s.room.sessions) < |s.room.sessions| {
      NextActivated(c, s);
      hide AfterSession, Effect;
      QuietEffect(s, ActivateNextSession(s));
    } else {
      ActivateCloses(c, s);
      var s0 := s.(timer := None);
      assert AfterSession(c, s0);
      hide AfterSession, ActivateNextSession, CloseSessions, AllOver;
      CloseEffect(c, s0);
      QuietEffect(s, s0);
      EffectComposes(s, s0, CloseSessions(s0));
    }
  }

  /** Sessions and timers concern nobody's row. */
  lemma QuietSession(s: Slice, t: Slice)
    requires t == s.(room := s.room.(sessions := t.room.sessions), timer := t.timer)
    ensures Effect(s, t)
  {
    QuietEffect(s, t);
  }

  lemma JudgedEffect(c: Config, s: Slice, id: nat, choice: Choice)
    requires RoomInv(c, s.room, s.timer) && HasSession(s.room, id) && s.room.sessions[id - 1].state.Voting?
    ensures Effect(s, Judged(s, id, choice))
  {
    hide RoomInv, Effect, Quiet;
    OnlyCurrentInProgress(c, s, id);
    var x := s.room.sessions[id - 1];
    OpenRow(c, s, x.audience);
    var t := WithSession(s, id, x.(vote := Some(choice), state := SessionState.Completed))
      .(timer := AfterCancel(s.timer, None));
    QuietSession(s, t);
    if choice.No? {
      EliminateEffect(t, {x.audience});
    } else {
      StatusEffect(t, {x.audience}, Finalist);
    }
    EffectComposes(s, t, Judged(s, id, choice));
  }

  lemma ActiveAudienceRow(c: Config, s: Slice, id: nat)
    requires RoomInv(c, s.room, s.timer) && HasSession(s.room, id) && InProgress(s.room.sessions[id - 1].state)
    ensures var u := s.room.sessions[id - 1].audience; u in s.room.members && s.room.members[u].status.Active?
  {
    OnlyCurrentInProgress(c, s, id);
    hide RoomInv;
  }

  lemma UnaskedEffect(c: Config, s: Slice, id: nat)
    requires RoomInv(c, s.room, s.timer) && HasSession(s.room, id)
    requires s.room.sessions[id - 1].state.Active? && s.room.sessions[id - 1].question.None?
    ensures Effect(s, Unasked(s.(timer := None), id))
  {
    hide RoomInv, Effect, SessionFits;
    OnlyCurrentInProgress(c, s, id);
    var x := s.room.sessions[id - 1];
    ActiveAudienceRow(c, s, id);
    OpenRow(c, s, x.audience);
    var t := WithSession(s.(timer := None), id, x.(state := SessionState.Completed));
    QuietSession(s, t);
    EliminateEffect(t, {x.audience});
    EffectComposes(s, t, Unasked(s.(timer := None), id));
  }

  lemma SubmitSessionVoteEffect(c: Config, s: Slice, id: nat, user: UserId, choice: Choice)
    requires RoomInv(c, s.room, s.timer)
    ensures Effect(s, SubmitSessionVote(s, id, user, choice).next)
  {
    hide RoomInv, ActivateNextSession, Judged, AfterSession;
    if SubmitSessionVote(s, id, user, choice).Ok? {
      JudgedKeeps(c, s, id, choice);
      JudgedEffect(c, s, id, choice);
      ActivateEffect(c, Judged(s, id, choice));
      EffectComposes(s, Judged(s, id, choice), ActivateNextSession(Judged(s, id, choice)));
    } else {
      QuietEffect(s, s);
    }
    hide Effect;
  }

  lemma SubmitVoteEffect(c: Config, s: Slice, voter: UserId, choice: Choice)
    requires RoomInv(c, s.room, s.timer)
    ensures Effect(s, SubmitVote(s, voter, choice).next)
  {
    if VoteError(s.room, voter).None? {
      BallotAdded(c, s, voter, choice);
      assert s.timer.None? || s.timer.value.kind.VotingTimer?;
      var t := CastVote(s, voter, choice);
      QuietEffect(s, t);
      hide RoomInv, Effect, FinalizeVoting, Countable, VoteError;
      FinalizeEffect(c, t);
      EffectComposes(s, t, FinalizeVoting(t));
    } else {
      QuietEffect(s, s);
    }
  }

  lemma CreateMatchEffect(c: Config, s: Slice, challenger: UserId, candidate: UserId)
    requires RoomInv(c, s.room, s.timer)
    ensures Effect(s, CreateMatch(s, challenger, candidate).next)
  {
    var s0 := s.(timer := AfterCancel(s.timer, Some(FinalTimer)));
    QuietEffect(s, s0);
    if CreateMatch(s, challenger, candidate).Ok? {
      FinalParts(c, s.room, s.timer);
      OpenChallenger(c, s.room);
      assert Finalists(s0.room) == Finalists(s.room);
      hide RoomInv, Effect, Settled, Eliminate, Paired, Finalists, Open;
      PairAndDismissEffect(s0, candidate);
      EffectComposes(s, s0, CreateMatch(s, challenger, candidate).next);
    }
  }

  lemma QuestionTimeoutEffect(c: Config, s: Slice)
    requires RoomInv(c, s.room, s.timer) && s.timer.Some? && s.timer.value.kind.AskTimer?
    ensures s.timer.value.session.Some?
    ensures Effect(s, QuestionTimeout(s.(timer := None), s.timer.value.session.value))
  {
    SessionTimerTells(c, s);
    hide RoomInv, Remaining, ActivateNextSession, AfterSession, SessionFits, Effect;
    var id := s.timer.value.session.value;
    UnaskedKeeps(c, s, id);
    UnaskedEffect(c, s, id);
    ActivateEffect(c, Unasked(s.(timer := None), id));
    EffectComposes(s, Unasked(s.(timer := None), id), ActivateNextSession(Unasked(s.(timer := None), id)));
  }

  lemma QuestioningTimeoutEffect(c: Config, s: Slice)
    ensures Effect(s, QuestioningTimeout(c, s.(timer := None)))
  {
    hide Fillers, AnsweredBy, AskedQuestions, Effect;
    QuietEffect(s, QuestioningTimeout(c, s.(timer := None)));
  }

  lemma VotingTimeoutEffect(c: Config, s: Slice)
    requires RoomInv(c, s.room, s.timer) && s.room.state.Voting?
    ensures Effect(s, VotingTimeout(s.(timer := None), Some(s.room.round)))
  {
    hide Effect, FinalizeVoting, Roster, IsWalk, AnsweredUpTo, Ballots, SessionsInv;
    var s0 := s.(timer := None);
    assert Countable(c, s0.room);
    hide RoomInv, Countable;
    QuietTimer(s);
    FinalizeEffect(c, s0);
    EffectComposes(s, s0, FinalizeVoting(s0));
  }

  lemma AnswerTimeoutEffect(c: Config, s: Slice)
    requires RoomInv(c, s.room, s.timer) && s.timer.Some? && s.timer.value.kind.ReplyTimer?
    ensures s.timer.value.session.Some? && Effect(s, AnswerTimeout(s.(timer := None), s.timer.value.session.value))
  {
    hide RoomInv, Effect, SessionFits;
    SessionTimerTells(c, s);
    QuietSession(s, AnswerTimeout(s.(timer := None), s.timer.value.session.value));
  }

  lemma VoteTimeoutEffect(c: Config, s: Slice)
    requires RoomInv(c, s.room, s.timer) && s.timer.Some? && s.timer.value.kind.JudgeTimer?
    ensures s.timer.value.session.Some? && Effect(s, VoteTimeout(s.(timer := None), s.timer.value.session.value))
  {
    hide RoomInv, Effect, SubmitSessionVote, VoteTimeout, SessionFits;
    SessionTimerTells(c, s);
    var id := s.timer.value.session.value;
    SubmitSessionVoteEffect(c, s, id, s.room.sessions[id - 1].audience, No);
    VoteTimeoutIs(c, s);
  }

  lemma FinalSelectionTimeoutEffect(c: Config, s: Slice, pick: UserId)
    requires RoomInv(c, s.room, s.timer) && s.timer.Some? && s.timer.value.kind.FinalTimer?
    requires s.room.state.FinalSelection?
    ensures Effect(s, FinalSelectionTimeout(s.(timer := None), pick))
  {
    hide RoomInv, Effect, Finalists, Settled, Eliminate, Paired;
    QuietTimer(s);
    CreateMatchEffect(c, s, s.room.challenger, pick);
  }

  lemma ExpireEffect(c: Config, s: Slice, pick: UserId)
    requires RoomInv(c, s.room, s.timer) && Possible(s, Expire(pick))
    ensures Effect(s, Expired(c, s, pick))
  {
    hide RoomInv, Effect, QuestioningTimeout, VotingTimeout, QuestionTimeout, AnswerTimeout, VoteTimeout,
      FinalSelectionTimeout, Finalists;
    TimerTellsPhase(c, s);
    match s.timer.value.kind
    case QuestioningTimer => QuestioningTimeoutEffect(c, s);
    case VotingTimer => VotingTimeoutEffect(c, s);
    case AskTimer => QuestionTimeoutEffect(c, s);
    case ReplyTimer => AnswerTimeoutEffect(c, s);
    case JudgeTimer => VoteTimeoutEffect(c, s);
    case FinalTimer => FinalSelectionTimeoutEffect(c, s, pick);
  }

  lemma VoteTimeoutIs(c: Config, s: Slice)
    requires RoomInv(c, s.room, s.timer) && s.timer.Some? && s.timer.value.kind.JudgeTimer?
    ensures s.timer.value.session.Some? && HasSession(s.room, s.timer.value.session.value)
    ensures var id := s.timer.value.session.value;
      VoteTimeout(s.(timer := None), id) == SubmitSessionVote(s, id, s.room.sessions[id - 1].audience, No).next
  {
    SessionTimerTells(c, s);
    var id := s.timer.value.session.value;
    assert Judged(s.(timer := None), id, No) == Judged(s, id, No);
    hide RoomInv, Judged, ActivateNextSession;
  }

  /** Whatever a step does, the users it moves are exactly those whose rows it closes or selects. */
  lemma StepEffect(c: Config, s: Slice, a: Action)
    requires RoomInv(c, s.room, s.timer)
    ensures Effect(s, Step(c, s, a).next)
  {
    hide RoomInv, Effect, SubmitVote, SubmitSessionVote, CreateMatch, Expired, Text.Strip;
    if !Possible(s, a) {
      QuietEffect(s, s);
    } else {
      match a
      case GiveAnswer(user, text) => QuietEffect(s, SubmitAnswer(c, s, user, text).next);
      case GiveVote(user, choice) => SubmitVoteEffect(c, s, user, choice);
      case Ask(id, user, text) => QuietEffect(s, SubmitSessionQuestion(c, s, id, user, text).next);
      case Respond(id, user, text) => QuietEffect(s, SubmitSessionAnswer(s, id, user, text).next);
      case Judge(id, user, choice) => SubmitSessionVoteEffect(c, s, id, user, choice);
      case Choose(user, candidate) => CreateMatchEffect(c, s, user, candidate);
      case Expire(pick) => ExpireEffect(c, s, pick);
    }
  }
}
