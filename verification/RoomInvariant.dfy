/** What holds of every room between two steps of an automatic run, phase by phase. */
module RoomInvariant {
  import opened Domain
  import opened Ordering
  import opened RoomStates
  import opened Protocol

  /** Who takes part in the room never changes: only a row's status and departure do. */
  ghost predicate SameRoster(r: Room, q: Room) {
    && r.challenger == q.challenger && r.questions == q.questions
    && r.members.Keys == q.members.Keys
    && (forall u | u in r.members ::
      r.members[u].role == q.members[u].role && r.members[u].joinedAt == q.members[u].joinedAt)
  }

  ghost predicate Roster(c: Config, r: Room) {
    && r.challenger in r.members
    && (forall u | u in r.members :: r.members[u].role.Challenger? <==> u == r.challenger)
    && Panel(r) != {}
    && (forall u | u in r.members :: r.members[u].leftAt.Some? <==> r.members[u].status.Eliminated?)
    && |r.questions| == c.rounds >= 1 && Distinct(r.questions)
  }

  ghost predicate AllActive(r: Room) {
    forall u | u in r.members :: r.members[u].status.Active?
  }

  /** The challenger has answered exactly the first k questions, in order. */
  ghost predicate AnsweredUpTo(r: Room, k: nat) {
    && |r.answers| == k <= |r.questions|
    && forall i | 0 <= i < k :: r.answers[i].question == r.questions[i] && r.answers[i].user == r.challenger
  }

  /** Votes are of the current round, from the panel, and no two share a voter. */
  ghost predicate Ballots(r: Room) {
    && (forall i | 0 <= i < |r.votes| :: r.votes[i].round == r.round && r.votes[i].voter in Panel(r))
    && (forall i, j | 0 <= i < j < |r.votes| :: r.votes[i].voter != r.votes[j].voter)
  }

  /** The panel members whose public vote was Yes: those who survive the public vote. */
  function YesVoters(r: Room): set<UserId> {
    set u | u in Panel(r) && VoteOf(r.votes, r.round, u) == Some(Yes)
  }

  ghost function Order(r: Room): seq<UserId> {
    Listing(JoinTimes(r), YesVoters(r))
  }

  /** One session for each public-vote survivor, numbered from 1 by (joined_at, user id). */
  ghost predicate SessionRoll(r: Room) {
    && |r.sessions| == |Order(r)|
    && forall i | 0 <= i < |r.sessions| ::
         r.sessions[i].audience == Order(r)[i] && r.sessions[i].sequence == i + 1
         && r.sessions[i].challenger == r.challenger
  }

  /** How many sessions are over before the first that is not. */
  function Current(xs: seq<Session>, i: nat := 0): (k: nat)
    requires i <= |xs|
    ensures i <= k <= |xs|
    ensures forall j | i <= j < k :: xs[j].state.Completed?
    ensures k < |xs| ==> !xs[k].state.Completed?
    decreases |xs| - i
  {
    if i < |xs| && xs[i].state.Completed? then Current(xs, i + 1) else i
  }

  /** In sequence order: completed sessions, then at most one in progress, then pending ones. */
  ghost predicate InSequence(xs: seq<Session>, k: nat) {
    && k <= |xs|
    && (forall j | 0 <= j < k :: xs[j].state.Completed?)
    && (k < |xs| ==> xs[k].state.Active? || xs[k].state.Voting?)
    && (forall j | k < j < |xs| :: xs[j].state.Pending?)
  }

  /** A session is voted on only once answered, and answered only once asked. */
  predicate Columns(x: Session) {
    (x.vote.Some? ==> x.answer.Some?) && (x.answer.Some? ==> x.question.Some?)
  }

  /** The audience members who voted Yes in their session. */
  function SaidYes(xs: seq<Session>): set<UserId> {
    set x | x in xs && x.vote == Some(Yes) :: x.audience
  }

  /** A session's columns agree with one another and with its audience member's row. */
  ghost predicate SessionFits(x: Session, m: Member) {
    && Columns(x)
    && match x.state
       case Pending => x.question.None? && m.status.Active?
       case Active => x.answer.None? && m.status.Active?
       case Voting => x.answer.Some? && x.vote.None? && m.status.Active?
       case Completed =>
         if x.vote == Some(Yes) then m.status.Finalist?
         else m.status.Eliminated? && (x.vote == Some(No) || x.question.None?)
       case _ => false
  }

  /** The rows of everybody but the audience members who have a session. */
  ghost predicate Benched(r: Room)
    requires r.challenger in r.members
  {
    && r.members[r.challenger].status.Active?
    && forall u | u in Panel(r) && u !in YesVoters(r) :: r.members[u].status.Eliminated?
  }

  /** The session rows agree with the public vote and with the participant rows. */
  ghost predicate SessionRows(c: Config, r: Room)
    requires r.challenger in r.members
  {
    && AnsweredUpTo(r, c.rounds) && 1 <= r.round <= c.rounds && Ballots(r) && r.pairing.None?
    && SessionRoll(r) && Benched(r)
    && forall i | 0 <= i < |r.sessions| ::
         r.sessions[i].audience in r.members && SessionFits(r.sessions[i], r.members[r.sessions[i].audience])
  }

  ghost predicate SessionsInv(c: Config, r: Room)
    requires r.challenger in r.members
  {
    SessionRows(c, r) && InSequence(r.sessions, Current(r.sessions))
  }

  ghost predicate Lobby(r: Room) {
    AllActive(r) && r.round == 0 && r.answers == [] && r.votes == [] && r.sessions == [] && r.pairing.None?
  }

  ghost predicate QuestioningInv(c: Config, r: Room) {
    && AllActive(r) && r.votes == [] && r.sessions == [] && r.pairing.None?
    && 1 <= r.round <= c.rounds && AnsweredUpTo(r, r.round - 1)
    && r.round <= |r.questions| && r.question == Some(r.questions[r.round - 1])
  }

  ghost predicate VotingInv(c: Config, r: Room) {
    && AllActive(r) && r.sessions == [] && r.pairing.None?
    && 1 <= r.round <= c.rounds && AnsweredUpTo(r, c.rounds)
    && Ballots(r) && |r.votes| < |Panel(r)|
  }

  ghost predicate FinalInv(c: Config, r: Room)
    requires r.challenger in r.members
  {
    SessionsInv(c, r) && Current(r.sessions) == |r.sessions| && |Finalists(r)| >= 2
  }

  /** Every survivor of the public vote had a session, all are over, and their votes decide whether there is a match. */
  ghost predicate Concluded(r: Room) {
    && Ballots(r) && SessionRoll(r)
    && (forall x | x in r.sessions :: x.state.Completed? && Columns(x))
    && (r.pairing.Some? <==> SaidYes(r.sessions) != {})
    && (r.pairing.Some? ==> r.pairing.value.audience in SaidYes(r.sessions))
  }

  /** A completed room either matched its challenger with one who said Yes, or released everybody because nobody did. */
  ghost predicate OverInv(c: Config, r: Room) {
    && AnsweredUpTo(r, c.rounds) && Concluded(r)
    && match r.pairing
       case None => forall u | u in r.members :: r.members[u].status.Eliminated?
       case Some(p) =>
         && p.challenger == r.challenger && p.audience in Panel(r)
         && forall u | u in r.members ::
              if u == p.challenger || u == p.audience
              then r.members[u].status.Selected? else r.members[u].status.Eliminated?
  }

  ghost predicate PhaseInv(c: Config, r: Room)
    requires r.challenger in r.members
  {
    match r.state
    case Ready => Lobby(r)
    case Intro => Lobby(r)
    case Questioning => QuestioningInv(c, r)
    case Voting => VotingInv(c, r)
    case OneOnOne => SessionsInv(c, r) && Current(r.sessions) < |r.sessions|
    case FinalSelection => FinalInv(c, r)
    case Completed => OverInv(c, r)
    case _ => false
  }

  function SessionTimer(x: Session): Timer {
    Timer(if x.state.Voting? then JudgeTimer else if x.question.Some? then ReplyTimer else AskTimer,
          Some(x.sequence), None)
  }

  /** The timer the current stage of a room calls for. */
  function Due(r: Room): Option<Timer> {
    match r.state
    case Questioning => Some(Timer(QuestioningTimer, None, None))
    case Voting => Some(Timer(VotingTimer, None, Some(r.round)))
    case OneOnOne =>
      var k := Current(r.sessions);
      if k < |r.sessions| then Some(SessionTimer(r.sessions[k])) else None
    case FinalSelection => Some(Timer(FinalTimer, None, None))
    case _ => None
  }

  /** Only a refused final selection leaves a room without the timer its stage calls for. */
  ghost predicate TimerFits(r: Room, timer: Option<Timer>) {
    timer == Due(r) || (r.state.FinalSelection? && timer.None?)
  }

  ghost predicate RoomInv(c: Config, r: Room, timer: Option<Timer>) {
    && Roster(c, r) && IsWalk(r.history, RoomState.Ready, r.state)
    && TimerFits(r, timer) && PhaseInv(c, r)
  }

  /** The invariant together with a running timer, unless the room is over: what an accepted step leaves behind. */
  ghost predicate Running(c: Config, r: Room, timer: Option<Timer>) {
    RoomInv(c, r, timer) && (r.state.Completed? || timer.Some?)
  }

  // ----- How much is left -----

  /** Steps a session can still take: a question, an answer and a vote. */
  function SessionWork(x: Session): nat {
    if x.state.Completed? then 0
    else if x.state.Voting? then 1
    else if x.question.Some? then 2
    else 3
  }

  function Work(xs: seq<Session>): nat {
    if xs == [] then 0 else Work(xs[..|xs| - 1]) + SessionWork(xs[|xs| - 1])
  }

  /** The number of player and timer steps a room can still accept before it is completed. */
  function Remaining(c: Config, r: Room): int {
    var a := |Panel(r)|;
    match r.state
    case Questioning => c.rounds - r.round + 1 + 4 * a + 1
    case Voting => a - |r.votes| + 3 * a + 1
    case OneOnOne => Work(r.sessions) + 1
    case FinalSelection => 1
    case _ => 0
  }

  /** An accepted step: the room is sound, its timer runs unless it is over, and there is less left to do. */
  ghost predicate Advances(c: Config, r: Room, t: Slice) {
    Running(c, t.room, t.timer) && Remaining(c, t.room) < Remaining(c, r)
  }

  /** What every call leaves behind: a sound room, advanced if the call was accepted and unchanged if it was not. */
  ghost predicate KeepsRoom(c: Config, s: Slice, reply: Reply) {
    && RoomInv(c, reply.next.room, reply.next.timer)
    && (reply.Refused? ==> reply.next.room == s.room && reply.next.users == s.users)
    && (reply.Ok? ==> Advances(c, s.room, reply.next))
  }
}
