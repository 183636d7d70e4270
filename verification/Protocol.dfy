/**
 What each service call and timer callback does to one room, as a function.

 A slice is everything such a call reads or writes: the room's rows, its entry in the timer
 registry, the users table and the clock reading of the call.  A call is one atomic step here.
 */
module Protocol {
  import opened Domain
  import opened Ordering
  import opened RoomStates
  import opened Text

  datatype Slice = Slice(room: Room, timer: Option<Timer>, users: map<UserId, User>, now: Time)

  /** A refused call raised an error; `next` holds what it had changed before raising. */
  datatype Reply = Ok(next: Slice) | Refused(error: Error, next: Slice)

  // ----- Queries -----

  function Panel(r: Room): set<UserId> {
    set u | u in r.members && r.members[u].role.Audience?
  }

  function ActiveAudience(r: Room): set<UserId> {
    set u | u in r.members && r.members[u].role.Audience? && r.members[u].leftAt.None?
  }

  function Finalists(r: Room): set<UserId> {
    set u | u in ActiveAudience(r) && r.members[u].status.Finalist?
  }

  function JoinTimes(r: Room): map<UserId, Time> {
    map u | u in r.members :: r.members[u].joinedAt
  }

  /** The choice a dictionary built from the votes in insertion order holds for a voter. */
  function VoteOf(votes: seq<Vote>, round: nat, voter: UserId): Option<Choice> {
    if votes == [] then None
    else
      var v := votes[|votes| - 1];
      if v.round == round && v.voter == voter then Some(v.choice)
      else VoteOf(votes[..|votes| - 1], round, voter)
  }

  function VotesIn(votes: seq<Vote>, round: nat): nat {
    if votes == [] then 0
    else VotesIn(votes[..|votes| - 1], round) + (if votes[|votes| - 1].round == round then 1 else 0)
  }

  /** The active audience that voted Yes this round. */
  function Keepers(r: Room): set<UserId> {
    set u | u in ActiveAudience(r) && VoteOf(r.votes, r.round, u) == Some(Yes)
  }

  predicate HasAnswer(r: Room, q: QuestionId, u: UserId) {
    exists a | a in r.answers :: a.question == q && a.user == u
  }

  predicate InProgress(state: SessionState) {
    state.Active? || state.Answered? || state.Voting?
  }

  predicate IsLive(members: map<UserId, Member>, u: UserId) {
    u in members && members[u].leftAt.None? && (members[u].status.Active? || members[u].status.Finalist?)
  }

  predicate HasSession(r: Room, id: nat) {
    1 <= id <= |r.sessions|
  }

  // ----- Row updates -----

  function WithState(users: map<UserId, User>, who: set<UserId>, state: UserState): map<UserId, User> {
    map u | u in users :: if u in who then users[u].(state := state) else users[u]
  }

  function WithStatus(members: map<UserId, Member>, who: set<UserId>, status: Status): map<UserId, Member> {
    map u | u in members :: if u in who then members[u].(status := status) else members[u]
  }

  /** Marks the rows ELIMINATED and closes them. */
  function Dismissed(members: map<UserId, Member>, who: set<UserId>, now: Time): map<UserId, Member> {
    map u | u in members ::
      if u in who then members[u].(status := Status.Eliminated, leftAt := Some(now)) else members[u]
  }

  /** Eliminates participants: their rows are closed and their users go back to WAITING. */
  function Eliminate(s: Slice, who: set<UserId>): Slice {
    s.(room := s.room.(members := Dismissed(s.room.members, who, s.now)),
       users := WithState(s.users, who, UserState.Waiting))
  }

  // ----- TimerService, as one room sees it -----

  /** cancel_timer: a kind, when given, must match. */
  function AfterCancel(timer: Option<Timer>, kind: Option<TimerKind>): Option<Timer> {
    if timer.Some? && (kind.None? || timer.value.kind == kind.value) then None else timer
  }

  // ----- RoomStateService.transition -----

  function Committed(r: Room, target: RoomState): Room {
    r.(state := target,
       round := if target.Questioning? then r.round + 1 else r.round,
       history := r.history + [Move(r.state, target)])
  }

  function AfterLeaving(source: RoomState, timer: Option<Timer>): Option<Timer> {
    match source
    case Questioning => AfterCancel(timer, Some(QuestioningTimer))
    case Voting => AfterCancel(timer, Some(VotingTimer))
    case OneOnOne => AfterCancel(timer, None)
    case FinalSelection => AfterCancel(timer, Some(FinalTimer))
    case _ => timer
  }

  function StartRound(r: Room): Room {
    if 1 <= r.round <= |r.questions| then r.(question := Some(r.questions[r.round - 1])) else r
  }

  ghost function NewSessions(order: seq<UserId>, challenger: UserId): (sessions: seq<Session>)
    ensures |sessions| == |order|
  {
    seq(|order|, i requires 0 <= i < |order| =>
      Session(order[i], challenger, i + 1,
              if i == 0 then SessionState.Active else SessionState.Pending, None, None, None))
  }

  ghost function InitializeSessions(s: Slice): Slice {
    if s.room.sessions != [] then s else
      var order := Listing(JoinTimes(s.room), ActiveAudience(s.room));
      s.(room := s.room.(sessions := NewSessions(order, s.room.challenger)),
         timer := if order == [] then s.timer else Some(Timer(AskTimer, Some(1), None)))
  }

  ghost function Entered(s: Slice, target: RoomState): Slice {
    match target
    case Questioning => s.(room := StartRound(s.room), timer := Some(Timer(QuestioningTimer, None, None)))
    case Voting => s.(timer := Some(Timer(VotingTimer, None, Some(s.room.round))))
    case OneOnOne => InitializeSessions(s)
    case FinalSelection => s.(timer := Some(Timer(FinalTimer, None, None)))
    case _ => s
  }

  /** The transition once its validity check has passed. */
  ghost function Moved(s: Slice, target: RoomState): Slice {
    Entered(s.(room := Committed(s.room, target), timer := AfterLeaving(s.room.state, s.timer)), target)
  }

  ghost function Transition(s: Slice, target: RoomState): Reply {
    if IsValidTransition(s.room.state, target) then Ok(Moved(s, target)) else Refused(InvalidTransition, s)
  }

  // ----- QuestioningService -----

  ghost function SubmitAnswer(c: Config, s: Slice, user: UserId, text: string): Reply {
    var r := s.room;
    if !r.state.Questioning? then Refused(InvalidAnswerSubmission, s)
    else if user != r.challenger then Refused(NotChallenger, s)
    else if !(1 <= r.round <= |r.questions|) then Refused(InvalidAnswerSubmission, s)
    else
      var q := r.questions[r.round - 1];
      if HasAnswer(r, q, user) then Refused(DuplicateAnswer, s)
      else
        var s1 := s.(room := r.(answers := r.answers + [Answer(q, user, text)]));
        if r.round < c.rounds then
          // Without a next question the new round number is never committed.
          if r.round < |r.questions|
          then Ok(s1.(room := s1.room.(round := r.round + 1, question := Some(r.questions[r.round]))))
          else Ok(s1)
        else Transition(s1, RoomState.Voting)
  }

  /** One placeholder for each question of the list that is not among the answered ones. */
  function Fillers(questions: seq<QuestionId>, answered: set<QuestionId>, user: UserId): seq<Answer> {
    if questions == [] then []
    else
      var q := questions[|questions| - 1];
      Fillers(questions[..|questions| - 1], answered, user)
      + (if q in answered then [] else [Answer(q, user, NO_RESPONSE)])
  }

  function AnsweredBy(r: Room, user: UserId): set<QuestionId> {
    set a | a in r.answers && a.user == user :: a.question
  }

  function AskedQuestions(c: Config, r: Room): seq<QuestionId> {
    if c.rounds <= |r.questions| then r.questions[..c.rounds] else r.questions
  }

  ghost function QuestioningTimeout(c: Config, s: Slice): Slice {
    var r := s.room;
    if !r.state.Questioning? then s else
      var fillers := Fillers(AskedQuestions(c, r), AnsweredBy(r, r.challenger), r.challenger);
      Transition(s.(room := r.(answers := r.answers + fillers)), RoomState.Voting).next
  }

  // ----- VotingService -----

  /** The elimination commit: only Yes voters stay, and if none stays the challenger goes too. */
  function Tally(s: Slice): Slice {
    var keep := Keepers(s.room);
    var gone := ActiveAudience(s.room) - keep;
    var host := s.room.challenger;
    var out :=
      if keep == {} && host in s.room.members && s.room.members[host].leftAt.None? then gone + {host} else gone;
    Eliminate(s.(room := s.room.(members := WithStatus(s.room.members, keep, Status.Active))), out)
  }

  function AfterElimination(survivors: set<UserId>): RoomState {
    if survivors != {} then RoomState.OneOnOne else RoomState.Completed
  }

  ghost function FinalizeVoting(s: Slice): Slice {
    var s0 := s.(timer := AfterCancel(s.timer, Some(VotingTimer)));
    if !s.room.state.Voting? && !s.room.state.Elimination? then s0 else
      var s1 := if s0.room.state.Voting? then Transition(s0, RoomState.Elimination).next else s0;
      Transition(Tally(s1), AfterElimination(Keepers(s1.room))).next
  }

  function CastVote(s: Slice, voter: UserId, choice: Choice): Slice {
    s.(room := s.room.(votes := s.room.votes + [Vote(s.room.round, voter, choice)]))
  }

  /** The checks a public vote has to pass. */
  function VoteError(r: Room, voter: UserId): Option<Error> {
    if !r.state.Voting? then Some(InvalidVotingState)
    else if voter == r.challenger then Some(InvalidVoter)
    else if voter !in ActiveAudience(r) then Some(InvalidVoter)
    else if VoteOf(r.votes, r.round, voter).Some? then Some(DuplicateVote)
    else None
  }

  ghost function SubmitVote(s: Slice, voter: UserId, choice: Choice): Reply {
    var error := VoteError(s.room, voter);
    if error.Some? then Refused(error.value, s)
    else
      var s1 := CastVote(s, voter, choice);
      Ok(if VotesIn(s1.room.votes, s1.room.round) >= |ActiveAudience(s1.room)| then FinalizeVoting(s1) else s1)
  }

  ghost function VotingTimeout(s: Slice, round: Option<nat>): Slice {
    if s.room.state.Voting? && round == Some(s.room.round) then FinalizeVoting(s) else s
  }

  // ----- MatchService -----

  /** The match row, its match room and the two SELECTED participants. */
  function Paired(s: Slice, candidate: UserId): Slice {
    var pair := {s.room.challenger, candidate};
    s.(room := s.room.(
         pairing := Some(Pairing(s.room.challenger, candidate, MatchStatus.Created, WaitingForContacts, [])),
         members := WithStatus(s.room.members, pair, Selected)),
       users := WithState(s.users, pair, UserState.Matched))
  }

  ghost function Settled(s: Slice): Slice {
    var matched := Transition(s, RoomState.Matched);
    if matched.Ok? then Transition(matched.next, RoomState.Completed).next else s
  }

  ghost function CreateMatchForSingleSurvivor(s: Slice, survivor: UserId): Slice {
    if s.room.pairing.Some? then s else Settled(Paired(s, survivor))
  }

  /** The timer is cancelled before any check is made. */
  ghost function CreateMatch(s: Slice, challenger: UserId, candidate: UserId): Reply {
    var s0 := s.(timer := AfterCancel(s.timer, Some(FinalTimer)));
    var r := s.room;
    if !r.state.FinalSelection? then Refused(InvalidFinalSelectionState, s0)
    else if challenger != r.challenger then Refused(FinalSelectionUnauthorized, s0)
    else if candidate == challenger then Refused(NotEligibleFinalist, s0)
    else if candidate !in Finalists(r) then Refused(NotEligibleFinalist, s0)
    else if r.pairing.Some? then Refused(MatchAlreadyExists, s0)
    else Ok(Settled(Eliminate(Paired(s0, candidate), Finalists(r) - {candidate})))
  }

  /** `pick` is the row the query for finalists happens to return first. */
  ghost function FinalSelectionTimeout(s: Slice, pick: UserId): Slice {
    if !s.room.state.FinalSelection? || Finalists(s.room) == {} then s
    else CreateMatch(s, s.room.challenger, pick).next
  }

  // ----- OneOnOneService -----

  function WithSession(s: Slice, id: nat, x: Session): Slice
    requires HasSession(s.room, id)
  {
    s.(room := s.room.(sessions := s.room.sessions[id - 1 := x]))
  }

  /** The first pending session at or after `i` whose audience member is still in the room. */
  function FirstLive(sessions: seq<Session>, members: map<UserId, Member>, i: nat): (f: nat)
    requires i <= |sessions|
    ensures i <= f <= |sessions|
    ensures f < |sessions| ==> sessions[f].state.Pending? && IsLive(members, sessions[f].audience)
    ensures forall j | i <= j < f :: !(sessions[j].state.Pending? && IsLive(members, sessions[j].audience))
    decreases |sessions| - i
  {
    if i == |sessions| then i
    else if sessions[i].state.Pending? && IsLive(members, sessions[i].audience) then i
    else FirstLive(sessions, members, i + 1)
  }

  /** Pending sessions before `f` are stale and closed; session `f` becomes active. */
  function Activated(sessions: seq<Session>, f: nat): seq<Session> {
    seq(|sessions|, j requires 0 <= j < |sessions| =>
      if !sessions[j].state.Pending? || j > f then sessions[j]
      else sessions[j].(state := if j == f then SessionState.Active else SessionState.Completed))
  }

  /** No session is left: the number of finalists decides where the room goes. */
  ghost function CloseSessions(s: Slice): Slice {
    var finalists := Finalists(s.room);
    var host := s.room.challenger;
    if |finalists| > 1 then Transition(s, RoomState.FinalSelection).next
    else if |finalists| == 1 then
      var survivor :| survivor in finalists;
      CreateMatchForSingleSurvivor(s, survivor)
    else
      var s1 := if host in s.room.members && s.room.members[host].leftAt.None? then Eliminate(s, {host}) else s;
      Transition(s1, RoomState.Completed).next
  }

  ghost function ActivateNextSession(s: Slice): Slice {
    var r := s.room;
    if !r.state.OneOnOne? || exists x | x in r.sessions :: InProgress(x.state) then s
    else
      var f := FirstLive(r.sessions, r.members, 0);
      var s1 := s.(room := r.(sessions := Activated(r.sessions, f)));
      if f < |r.sessions| then s1.(timer := Some(Timer(AskTimer, Some(r.sessions[f].sequence), None)))
      else CloseSessions(s1.(timer := AfterCancel(s.timer, None)))
  }

  ghost function SubmitSessionQuestion(c: Config, s: Slice, id: nat, user: UserId, text: string): Reply {
    if !HasSession(s.room, id) then Refused(SessionNotFound, s)
    else
      var x := s.room.sessions[id - 1];
      var cleaned := Strip(text);
      if user != x.audience then Refused(SessionUnauthorized, s)
      else if !x.state.Active? then Refused(InvalidSessionState, s)
      else if x.question.Some? then Refused(DuplicateSessionQuestion, s)
      else if cleaned == "" || |cleaned| > c.questionMax then Refused(InvalidPayload, s)
      else Ok(WithSession(s, id, x.(question := Some(cleaned))).(timer := Some(Timer(ReplyTimer, Some(id), None))))
  }

  ghost function SubmitSessionAnswer(s: Slice, id: nat, user: UserId, text: string): Reply {
    if !HasSession(s.room, id) then Refused(SessionNotFound, s)
    else
      var x := s.room.sessions[id - 1];
      var cleaned := Strip(text);
      if user != x.challenger then Refused(SessionUnauthorized, s)
      else if x.question.None? then Refused(InvalidSessionState, s)
      else if x.answer.Some? then Refused(DuplicateSessionAnswer, s)
      else if !x.state.Active? && !x.state.Answered? then Refused(InvalidSessionState, s)
      else if cleaned == "" then Refused(InvalidPayload, s)
      else Ok(WithSession(s, id, x.(answer := Some(cleaned), state := SessionState.Voting))
              .(timer := Some(Timer(JudgeTimer, Some(id), None))))
  }

  /** The session vote and its effect on the audience member, before the next session is looked for. */
  function Judged(s: Slice, id: nat, choice: Choice): Slice
    requires HasSession(s.room, id)
  {
    var x := s.room.sessions[id - 1];
    var s1 := WithSession(s, id, x.(vote := Some(choice), state := SessionState.Completed))
      .(timer := AfterCancel(s.timer, None));
    if choice.No? then Eliminate(s1, {x.audience})
    else s1.(room := s1.room.(members := WithStatus(s1.room.members, {x.audience}, Finalist)))
  }

  ghost function SubmitSessionVote(s: Slice, id: nat, user: UserId, choice: Choice): Reply {
    if !HasSession(s.room, id) then Refused(SessionNotFound, s)
    else
      var x := s.room.sessions[id - 1];
      if user != x.audience then Refused(SessionUnauthorized, s)
      else if !x.state.Voting? then Refused(InvalidSessionState, s)
      else if x.vote.Some? then Refused(DuplicateSessionVote, s)
      else Ok(ActivateNextSession(Judged(s, id, choice)))
  }

  ghost function QuestionTimeout(s: Slice, id: nat): Slice {
    if !HasSession(s.room, id) then s
    else
      var x := s.room.sessions[id - 1];
      if !x.state.Active? || x.question.Some? then s
      else ActivateNextSession(
        Eliminate(WithSession(s, id, x.(state := SessionState.Completed)), {x.audience}))
  }

  /** Unlike its siblings this callback checks neither the session's state nor its question. */
  ghost function AnswerTimeout(s: Slice, id: nat): Slice {
    if !HasSession(s.room, id) || s.room.sessions[id - 1].answer.Some? then s
    else
      WithSession(s, id, s.room.sessions[id - 1].(answer := Some(NO_RESPONSE), state := SessionState.Voting))
      .(timer := Some(Timer(JudgeTimer, Some(id), None)))
  }

  ghost function VoteTimeout(s: Slice, id: nat): Slice {
    if !HasSession(s.room, id) then s
    else
      var x := s.room.sessions[id - 1];
      if !x.state.Voting? || x.vote.Some? then s
      else SubmitSessionVote(s, id, x.audience, No).next
  }

  // ----- Steps -----

  datatype Action =
    | GiveAnswer(user: UserId, text: string)
    | GiveVote(user: UserId, choice: Choice)
    | Ask(session: nat, user: UserId, text: string)
    | Respond(session: nat, user: UserId, text: string)
    | Judge(session: nat, user: UserId, choice: Choice)
    | Choose(user: UserId, candidate: UserId)
    | Expire(pick: UserId)

  /** The registered timer's countdown ends: its record is removed and its callback runs. */
  ghost function Expired(c: Config, s: Slice, pick: UserId): Slice
    requires s.timer.Some?
  {
    var t := s.timer.value;
    var s0 := s.(timer := None);
    var id := if t.session.Some? then t.session.value else 0;
    match t.kind
    case QuestioningTimer => QuestioningTimeout(c, s0)
    case VotingTimer => VotingTimeout(s0, t.round)
    case AskTimer => QuestionTimeout(s0, id)
    case ReplyTimer => AnswerTimeout(s0, id)
    case JudgeTimer => VoteTimeout(s0, id)
    case FinalTimer => FinalSelectionTimeout(s0, pick)
  }

  /** A timer can only expire while it is registered, and the finalist it picks is one there is. */
  ghost predicate Possible(s: Slice, a: Action) {
    a.Expire? ==>
      && s.timer.Some?
      && (s.timer.value.kind.FinalTimer? && s.room.state.FinalSelection? && Finalists(s.room) != {} ==>
            a.pick in Finalists(s.room))
  }

  ghost function Step(c: Config, s: Slice, a: Action): Reply {
    if !Possible(s, a) then Refused(NotPossible, s) else
      match a
      case GiveAnswer(user, text) => SubmitAnswer(c, s, user, text)
      case GiveVote(user, choice) => SubmitVote(s, user, choice)
      case Ask(id, user, text) => SubmitSessionQuestion(c, s, id, user, text)
      case Respond(id, user, text) => SubmitSessionAnswer(s, id, user, text)
      case Judge(id, user, choice) => SubmitSessionVote(s, id, user, choice)
      case Choose(user, candidate) => CreateMatch(s, user, candidate)
      case Expire(pick) => Ok(Expired(c, s, pick))
  }
}
