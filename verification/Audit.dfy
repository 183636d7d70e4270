/**
 The audit history under arbitrary use: players, timers and the admin endpoint, which may ask for any
 transition at any time.  Nothing here supposes that the room is in a sound phase.
 */
module Audit {
  import opened Domain
  import opened RoomStates
  import opened Protocol
  import Text

  datatype Request = Admin(target: RoomState) | Play(action: Action)

  ghost function After(c: Config, s: Slice, x: Request): Slice {
    match x
    case Admin(target) => Transition(s, target).next
    case Play(a) => Step(c, s, a).next
  }

  /** The history leads from READY to the room's state, and every opening of a round is counted. */
  ghost predicate Sound(r: Room) {
    IsWalk(r.history, RoomState.Ready, r.state) && Rounds(r.history) <= r.round
  }

  predicate StillSet<T(==)>(before: Option<T>, after: Option<T>) {
    before.Some? ==> after == before
  }

  /** The same session, none of whose columns is written a second time. */
  predicate WrittenOnce(x: Session, y: Session) {
    && x.audience == y.audience && x.challenger == y.challenger && x.sequence == y.sequence
    && StillSet(x.question, y.question) && StillSet(x.answer, y.answer) && StillSet(x.vote, y.vote)
  }

  /** Answers and votes are only added, a match is made once, sessions are created once and filled in once. */
  ghost predicate Kept(r: Room, q: Room) {
    && r.answers <= q.answers && r.votes <= q.votes && StillSet(r.pairing, q.pairing)
    && (r.sessions != [] ==> |q.sessions| == |r.sessions|)
    && (r.sessions != [] ==> forall i | 0 <= i < |r.sessions| :: WrittenOnce(r.sessions[i], q.sessions[i]))
  }

  /** Nothing is ever taken back: the history only grows, the round never goes down, and soundness stays. */
  ghost predicate Extends(r: Room, q: Room) {
    r.history <= q.history && r.round <= q.round && (Sound(r) ==> Sound(q)) && Kept(r, q)
  }

  /** A change of other rows. */
  ghost predicate Aside(r: Room, q: Room) {
    q.history == r.history && q.round == r.round && q.state == r.state && Kept(r, q)
  }

  lemma CommittedExtends(r: Room, target: RoomState)
    requires IsValidTransition(r.state, target)
    ensures Extends(r, Committed(r, target))
  {
    if IsWalk(r.history, RoomState.Ready, r.state) {
      WalkExtends(r.history, RoomState.Ready, r.state, target);
    }
    assert Committed(r, target).history[..|r.history|] == r.history;
  }

  lemma EnteredAside(s: Slice, target: RoomState)
    ensures Aside(s.room, Entered(s, target).room)
  {
  }

  lemma TransitionExtends(s: Slice, target: RoomState)
    ensures Extends(s.room, Transition(s, target).next.room)
  {
    hide Sound, Entered;
    if IsValidTransition(s.room.state, target) {
      CommittedExtends(s.room, target);
      var t := s.(room := Committed(s.room, target), timer := AfterLeaving(s.room.state, s.timer));
      EnteredAside(t, target);
      AsideExtends(t.room, Entered(t, target).room);
      ExtendsComposes(s.room, t.room, Entered(t, target).room);
    }
  }

  lemma AsideExtends(r: Room, q: Room)
    requires Aside(r, q)
    ensures Extends(r, q)
  {
  }

  lemma ExtendsComposes(r: Room, q: Room, p: Room)
    requires Extends(r, q) && Extends(q, p)
    ensures Extends(r, p)
  {
    hide Sound;
  }

  /** A change of other rows followed by a transition. */
  lemma AsideThenTransition(s: Slice, t: Slice, target: RoomState)
    requires Aside(s.room, t.room)
    ensures Extends(s.room, Transition(t, target).next.room)
  {
    hide Sound, Transition;
    AsideExtends(s.room, t.room);
    TransitionExtends(t, target);
    ExtendsComposes(s.room, t.room, Transition(t, target).next.room);
  }

  lemma SettledExtends(s: Slice, t: Slice)
    requires Aside(s.room, t.room)
    ensures Extends(s.room, Settled(t).room)
  {
    hide Sound, Transition;
    AsideExtends(s.room, t.room);
    AsideThenTransition(s, t, RoomState.Matched);
    var m := Transition(t, RoomState.Matched);
    if m.Ok? {
      TransitionExtends(m.next, RoomState.Completed);
      ExtendsComposes(s.room, m.next.room, Settled(t).room);
    }
  }

  lemma SubmitAnswerExtends(c: Config, s: Slice, user: UserId, text: string)
    ensures Extends(s.room, SubmitAnswer(c, s, user, text).next.room)
  {
    hide Transition, HasAnswer;
    var r := s.room;
    if 1 <= r.round <= |r.questions| {
      var s1 := s.(room := r.(answers := r.answers + [Domain.Answer(r.questions[r.round - 1], user, text)]));
      AsideThenTransition(s, s1, RoomState.Voting);
    }
  }

  lemma QuestioningTimeoutExtends(c: Config, s: Slice)
    ensures Extends(s.room, QuestioningTimeout(c, s).room)
  {
    hide Transition, Fillers, AskedQuestions, AnsweredBy;
    var r := s.room;
    var fillers := Fillers(AskedQuestions(c, r), AnsweredBy(r, r.challenger), r.challenger);
    AsideThenTransition(s, s.(room := r.(answers := r.answers + fillers)), RoomState.Voting);
  }

  lemma FinalizeExtends(s: Slice)
    ensures Extends(s.room, FinalizeVoting(s).room)
  {
    hide Transition, Sound, Keepers, ActiveAudience;
    var s0 := s.(timer := AfterCancel(s.timer, Some(VotingTimer)));
    var s1 := if s0.room.state.Voting? then Transition(s0, RoomState.Elimination).next else s0;
    AsideExtends(s.room, s0.room);
    TransitionExtends(s0, RoomState.Elimination);
    ExtendsComposes(s.room, s0.room, s1.room);
    AsideThenTransition(s1, Tally(s1), AfterElimination(Keepers(s1.room)));
    hide Tally;
    ExtendsComposes(s.room, s1.room, Transition(Tally(s1), AfterElimination(Keepers(s1.room))).next.room);
  }

  lemma SubmitVoteExtends(s: Slice, voter: UserId, choice: Choice)
    ensures Extends(s.room, SubmitVote(s, voter, choice).next.room)
  {
    hide FinalizeVoting, VoteError, Sound, ActiveAudience;
    var s1 := CastVote(s, voter, choice);
    AsideExtends(s.room, s.room);
    AsideExtends(s.room, s1.room);
    FinalizeExtends(s1);
    ExtendsComposes(s.room, s1.room, FinalizeVoting(s1).room);
  }

  lemma CreateMatchExtends(s: Slice, user: UserId, candidate: UserId)
    ensures Extends(s.room, CreateMatch(s, user, candidate).next.room)
  {
    hide Settled, Sound, Finalists;
    var s0 := s.(timer := AfterCancel(s.timer, Some(FinalTimer)));
    AsideExtends(s.room, s0.room);
    if s.room.pairing.None? {
      SettledExtends(s, Eliminate(Paired(s0, candidate), Finalists(s.room) - {candidate}));
    }
  }

  lemma SingleSurvivorExtends(s: Slice, survivor: UserId)
    ensures Extends(s.room, CreateMatchForSingleSurvivor(s, survivor).room)
  {
    hide Settled, Sound;
    AsideExtends(s.room, s.room);
    if s.room.pairing.None? {
      SettledExtends(s, Paired(s, survivor));
    }
  }

  lemma CloseSessionsExtends(s: Slice)
    ensures Extends(s.room, CloseSessions(s).room)
  {
    hide CreateMatchForSingleSurvivor, Sound, Transition, Finalists, Extends;
    TransitionExtends(s, RoomState.FinalSelection);
    TransitionExtends(s, RoomState.Completed);
    AsideThenTransition(s, Eliminate(s, {s.room.challenger}), RoomState.Completed);
    forall survivor ensures Extends(s.room, CreateMatchForSingleSurvivor(s, survivor).room) {
      SingleSurvivorExtends(s, survivor);
    }
  }

  lemma ActivatedAside(r: Room, f: nat)
    ensures Aside(r, r.(sessions := Activated(r.sessions, f)))
  {
  }

  lemma ActivateExtends(s: Slice)
    ensures Extends(s.room, ActivateNextSession(s).room)
  {
    hide CloseSessions, Sound, FirstLive, Activated;
    AsideExtends(s.room, s.room);
    var f := FirstLive(s.room.sessions, s.room.members, 0);
    var s1 := s.(room := s.room.(sessions := Activated(s.room.sessions, f)));
    ActivatedAside(s.room, f);
    AsideExtends(s.room, s1.room);
    var s2 := s1.(timer := AfterCancel(s.timer, None));
    CloseSessionsExtends(s2);
    ExtendsComposes(s.room, s1.room, CloseSessions(s2).room);
  }

  lemma AsideThenActivate(s: Slice, t: Slice)
    requires Aside(s.room, t.room)
    ensures Extends(s.room, ActivateNextSession(t).room)
  {
    hide ActivateNextSession, Sound;
    AsideExtends(s.room, t.room);
    ActivateExtends(t);
    ExtendsComposes(s.room, t.room, ActivateNextSession(t).room);
  }

  lemma SessionVoteExtends(s: Slice, id: nat, user: UserId, choice: Choice)
    ensures Extends(s.room, SubmitSessionVote(s, id, user, choice).next.room)
  {
    hide ActivateNextSession, Sound;
    AsideExtends(s.room, s.room);
    if HasSession(s.room, id) && s.room.sessions[id - 1].vote.None? {
      AsideThenActivate(s, Judged(s, id, choice));
    }
  }

  lemma QuestionTimeoutExtends(s: Slice, id: nat)
    ensures Extends(s.room, QuestionTimeout(s, id).room)
  {
    hide ActivateNextSession, Sound;
    AsideExtends(s.room, s.room);
    if HasSession(s.room, id) {
      var x := s.room.sessions[id - 1];
      AsideThenActivate(s, Eliminate(WithSession(s, id, x.(state := SessionState.Completed)), {x.audience}));
    }
  }

  lemma ExpiredExtends(c: Config, s: Slice, pick: UserId)
    requires s.timer.Some?
    ensures Extends(s.room, Expired(c, s, pick).room)
  {
    hide Sound, QuestioningTimeout, FinalizeVoting, QuestionTimeout, SubmitSessionVote, CreateMatch, Finalists;
    var s0 := s.(timer := None);
    var id := if s.timer.value.session.Some? then s.timer.value.session.value else 0;
    AsideExtends(s.room, s.room);
    match s.timer.value.kind
    case QuestioningTimer => QuestioningTimeoutExtends(c, s0);
    case VotingTimer => FinalizeExtends(s0);
    case AskTimer => QuestionTimeoutExtends(s0, id);
    case ReplyTimer => AsideExtends(s.room, AnswerTimeout(s0, id).room);
    case JudgeTimer =>
      if HasSession(s0.room, id) {
        SessionVoteExtends(s0, id, s0.room.sessions[id - 1].audience, No);
      }
    case FinalTimer => CreateMatchExtends(s0, s0.room.challenger, pick);
  }

  /** No request, from whomever and in whatever state, takes anything back from the history. */
  lemma EveryRequestExtends(c: Config, s: Slice, x: Request)
    ensures Extends(s.room, After(c, s, x).room)
  {
    hide Sound, Transition, SubmitAnswer, SubmitVote, SubmitSessionVote, CreateMatch, Expired, Possible, Text.Strip;
    AsideExtends(s.room, s.room);
    match x
    case Admin(target) => TransitionExtends(s, target);
    case Play(a) =>
      match a
      case GiveAnswer(user, text) => SubmitAnswerExtends(c, s, user, text);
      case GiveVote(user, choice) => SubmitVoteExtends(s, user, choice);
      case Ask(id, user, text) => AsideExtends(s.room, SubmitSessionQuestion(c, s, id, user, text).next.room);
      case Respond(id, user, text) => AsideExtends(s.room, SubmitSessionAnswer(s, id, user, text).next.room);
      case Judge(id, user, choice) => SessionVoteExtends(s, id, user, choice);
      case Choose(user, candidate) => CreateMatchExtends(s, user, candidate);
      case Expire(pick) =>
        if Possible(s, a) {
          PossibleNeedsTimer(s, a);
          ExpiredExtends(c, s, pick);
        }
  }

  lemma PossibleNeedsTimer(s: Slice, a: Action)
    requires a.Expire? && Possible(s, a)
    ensures s.timer.Some?
  {
  }

  // ----- What is accepted is recorded -----

  /** The rows show what was submitted, also after everything the submission set off. */
  ghost predicate Recorded(r: Room, q: Room, a: Action) {
    match a
    case GiveAnswer(user, text) =>
      && 1 <= r.round <= |r.questions| && |q.answers| > |r.answers|
      && q.answers[|r.answers|] == Domain.Answer(r.questions[r.round - 1], user, text)
    case GiveVote(user, choice) => |q.votes| > |r.votes| && q.votes[|r.votes|] == Domain.Vote(r.round, user, choice)
    case Ask(id, user, text) =>
      HasSession(q, id) && q.sessions[id - 1].audience == user && q.sessions[id - 1].question == Some(Text.Strip(text))
    case Respond(id, user, text) =>
      HasSession(q, id) && q.sessions[id - 1].challenger == user && q.sessions[id - 1].answer == Some(Text.Strip(text))
    case Judge(id, user, choice) =>
      HasSession(q, id) && q.sessions[id - 1].audience == user && q.sessions[id - 1].vote == Some(choice)
    case Choose(user, candidate) =>
      q.pairing.Some? && q.pairing.value.challenger == user && q.pairing.value.audience == candidate
    case Expire(_) => true
  }

  lemma AnswerRecorded(c: Config, s: Slice, user: UserId, text: string)
    requires SubmitAnswer(c, s, user, text).Ok?
    ensures Recorded(s.room, SubmitAnswer(c, s, user, text).next.room, GiveAnswer(user, text))
  {
    hide Transition, HasAnswer, Sound;
    var r := s.room;
    var s1 := s.(room := r.(answers := r.answers + [Domain.Answer(r.questions[r.round - 1], user, text)]));
    TransitionExtends(s1, RoomState.Voting);
  }

  lemma VoteRecorded(s: Slice, user: UserId, choice: Choice)
    requires SubmitVote(s, user, choice).Ok?
    ensures Recorded(s.room, SubmitVote(s, user, choice).next.room, GiveVote(user, choice))
  {
    hide FinalizeVoting, VoteError, Sound, ActiveAudience, VotesIn;
    FinalizeExtends(CastVote(s, user, choice));
  }

  lemma JudgementRecorded(s: Slice, id: nat, user: UserId, choice: Choice)
    requires SubmitSessionVote(s, id, user, choice).Ok?
    ensures Recorded(s.room, SubmitSessionVote(s, id, user, choice).next.room, Judge(id, user, choice))
  {
    hide ActivateNextSession, Sound;
    var t := Judged(s, id, choice);
    ActivateExtends(t);
    assert WrittenOnce(t.room.sessions[id - 1], ActivateNextSession(t).room.sessions[id - 1]);
  }

  lemma ChoiceRecorded(s: Slice, user: UserId, candidate: UserId)
    requires CreateMatch(s, user, candidate).Ok?
    ensures Recorded(s.room, CreateMatch(s, user, candidate).next.room, Choose(user, candidate))
  {
    hide Settled, Sound, Finalists;
    var t := Eliminate(Paired(s.(timer := AfterCancel(s.timer, Some(FinalTimer))), candidate), Finalists(s.room) - {candidate});
    AsideExtends(t.room, t.room);
    SettledExtends(t, t);
  }

  /** An accepted submission is in the rows, under its submitter's name, and what it sets off does not overwrite it. */
  lemma AcceptedIsRecorded(c: Config, s: Slice, a: Action)
    requires Step(c, s, a).Ok?
    ensures Recorded(s.room, Step(c, s, a).next.room, a)
  {
    hide SubmitAnswer, SubmitVote, SubmitSessionVote, CreateMatch, Expired, Text.Strip, Recorded;
    match a
    case GiveAnswer(user, text) => AnswerRecorded(c, s, user, text);
    case GiveVote(user, choice) => VoteRecorded(s, user, choice);
    case Ask(id, user, text) => AskRecorded(c, s, id, user, text);
    case Respond(id, user, text) => ReplyRecorded(s, id, user, text);
    case Judge(id, user, choice) => JudgementRecorded(s, id, user, choice);
    case Choose(user, candidate) => ChoiceRecorded(s, user, candidate);
    case Expire(pick) => ExpiryRecordsNothing(s.room, Step(c, s, a).next.room, pick);
  }

  lemma AskRecorded(c: Config, s: Slice, id: nat, user: UserId, text: string)
    requires SubmitSessionQuestion(c, s, id, user, text).Ok?
    ensures Recorded(s.room, SubmitSessionQuestion(c, s, id, user, text).next.room, Ask(id, user, text))
  {
    hide Text.Strip;
  }

  lemma ReplyRecorded(s: Slice, id: nat, user: UserId, text: string)
    requires SubmitSessionAnswer(s, id, user, text).Ok?
    ensures Recorded(s.room, SubmitSessionAnswer(s, id, user, text).next.room, Respond(id, user, text))
  {
    hide Text.Strip;
  }

  lemma ExpiryRecordsNothing(r: Room, q: Room, pick: UserId)
    ensures Recorded(r, q, Expire(pick))
  {
  }

  // ----- Whole histories -----

  ghost function AfterAll(c: Config, s: Slice, xs: seq<Request>): Slice {
    if xs == [] then s else After(c, AfterAll(c, s, xs[..|xs| - 1]), xs[|xs| - 1])
  }

  /**
   Whatever requests a new room sees, its history is a connected walk through the valid transitions
   from READY to its state, and its round counts at least the rounds that walk opened.  At any two
   moments the earlier history is a prefix of the later one, and the round has not gone down.
   */
  lemma {:induction false} HistoryIsAWalk(c: Config, s: Slice, xs: seq<Request>, earlier: nat)
    requires s.room.state.Ready? && s.room.history == [] && earlier <= |xs|
    ensures Sound(AfterAll(c, s, xs).room)
    ensures Extends(AfterAll(c, s, xs[..earlier]).room, AfterAll(c, s, xs).room)
    decreases |xs|
  {
    hide After;
    var t := AfterAll(c, s, xs);
    if earlier == |xs| {
      assert xs[..earlier] == xs;
      AsideExtends(t.room, t.room);
    }
    if xs != [] {
      var n := |xs| - 1;
      var before := AfterAll(c, s, xs[..n]);
      HistoryIsAWalk(c, s, xs[..n], if earlier <= n then earlier else n);
      EveryRequestExtends(c, before, xs[n]);
      if earlier <= n {
        assert xs[..n][..earlier] == xs[..earlier];
        ExtendsComposes(AfterAll(c, s, xs[..earlier]).room, before.room, t.room);
      }
    }
  }

  /**
   Whatever a new room is asked to do, by players, timers or administrators, it enters INTRO,
   QUESTIONING, VOTING and ELIMINATION in that order before anything else; it is not COMPLETED before,
   and once COMPLETED it stays so.
   */
  lemma {:induction false} EveryRoomOpensAlike(c: Config, s: Slice, xs: seq<Request>, earlier: nat)
    requires s.room.state.Ready? && s.room.history == [] && earlier <= |xs|
    ensures var r := AfterAll(c, s, xs).room;
      var opening := [Move(RoomState.Ready, RoomState.Intro), Move(RoomState.Intro, RoomState.Questioning),
                      Move(RoomState.Questioning, RoomState.Voting), Move(RoomState.Voting, RoomState.Elimination)];
      && (if |r.history| < 4 then r.history <= opening else opening <= r.history)
      && (r.state.Completed? ==> |r.history| >= 5)
      && (forall m | m in r.history :: !m.source.Completed?)
      && (AfterAll(c, s, xs[..earlier]).room.state.Completed? ==> r.state.Completed?)
  {
    hide AfterAll, Kept;
    HistoryIsAWalk(c, s, xs, earlier);
    HistoryIsAWalk(c, s, xs[..earlier], earlier);
    var p := AfterAll(c, s, xs[..earlier]).room;
    var r := AfterAll(c, s, xs).room;
    OpeningMoves(r.history, r.state);
    NoWayBack(r.history, r.state);
    hide IsWalk, Rounds;
    EndsStay(p, r);
  }

  lemma EndsStay(p: Room, r: Room)
    requires IsWalk(p.history, RoomState.Ready, p.state) && IsWalk(r.history, RoomState.Ready, r.state) && p.history <= r.history
    ensures p.state.Completed? ==> r.state.Completed?
  {
    var n := |p.history|;
    if p.state.Completed? && n < |r.history| {
      LeavesItsState(r.history, r.state, n);
    } else if n == |r.history| {
      assert p.history == r.history;
    }
  }

  /** In a walk each move starts where the one before it ended. */
  lemma {:induction false} LeavesItsState(history: seq<Move>, target: RoomState, n: nat)
    requires IsWalk(history, RoomState.Ready, target) && n < |history|
    ensures history[n].source == if n == 0 then RoomState.Ready else history[n - 1].target
    ensures IsValidTransition(history[n].source, history[n].target)
    decreases |history|
  {
    var h := history[..|history| - 1];
    if n < |h| {
      LeavesItsState(h, history[|h|].source, n);
    }
  }
}
