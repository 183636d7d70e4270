/** What one accepted step changes in a sound room, column by column, and what it leaves alone. */
module Changes {
  import opened Domain
  import opened Ordering
  import opened RoomStates
  import opened Protocol
  import opened RoomInvariant
  import opened QuestioningVoting
  import opened SessionSteps
  import opened RoomRuns
  import opened Outcomes
  import opened Turns
  import Text

  // ----- Moves -----

  /** The timer that keeps running in a room that leaves the state `source`. */
  function Outlives(source: RoomState, timer: Option<Timer>): Option<Timer> {
    if timer.None? || source.OneOnOne? then None
    else if (source.Questioning? && timer.value.kind.QuestioningTimer?) || (source.Voting? && timer.value.kind.VotingTimer?)
         || (source.FinalSelection? && timer.value.kind.FinalTimer?) then None
    else timer
  }

  /**
   What any transition does, asked for by a service or by an administrator, in any room: the phase left
   takes its own timer with it, the phase entered starts its own, and nothing but the state, the round,
   the question on display, the audit row and a first set of sessions changes.
   */
  lemma TransitionChanges(s: Slice, target: RoomState)
    ensures var r := s.room; var t := Transition(s, target).next; var q := t.room;
      if Transition(s, target).Refused? then t == s
      else
        && t.users == s.users && t.now == s.now
        && q == r.(state := target, round := q.round, question := q.question, sessions := q.sessions,
                   history := r.history + [Move(r.state, target)])
        && q.round == r.round + (if target.Questioning? then 1 else 0)
        && q.question == (if target.Questioning? && q.round <= |r.questions| then Some(r.questions[q.round - 1]) else r.question)
        && (q.sessions != r.sessions ==> target.OneOnOne? && r.sessions == [])
        && (target.OneOnOne? && r.sessions == [] ==> FirstSessions(r, q.sessions))
        && t.timer == (
             if target.Questioning? then Some(Timer(QuestioningTimer, None, None))
             else if target.Voting? then Some(Timer(VotingTimer, None, Some(r.round)))
             else if target.FinalSelection? then Some(Timer(FinalTimer, None, None))
             else if target.OneOnOne? && r.sessions == [] && q.sessions != [] then Some(Timer(AskTimer, Some(1), None))
             else Outlives(r.state, s.timer))
  {
    hide FirstSessions, Listing;
    TheMoves(s.room.state, target);
    FirstOnes(Committed(s.room, target));
    SameFirst(s.room, Committed(s.room, target), Transition(s, target).next.room.sessions);
    hide JoinTimes, ActiveAudience;
  }

  /**
   One session for each audience member present and for nobody else, in the order in which they joined
   the room, numbered from 1; the first is active, and nothing has been said in any.
   */
  ghost predicate FirstSessions(r: Room, xs: seq<Session>) {
    && (forall x | x in xs :: x.audience in r.members && r.members[x.audience].role.Audience? && r.members[x.audience].leftAt.None?)
    && (forall u | u in r.members && r.members[u].role.Audience? && r.members[u].leftAt.None? ::
         exists x :: x in xs && x.audience == u)
    && (forall i, j | 0 <= i < j < |xs| ::
         var a := r.members[xs[i].audience].joinedAt; var b := r.members[xs[j].audience].joinedAt;
         a < b || (a == b && xs[i].audience < xs[j].audience))
    && (forall i | 0 <= i < |xs| ::
         xs[i] == Session(xs[i].audience, r.challenger, i + 1,
                          if i == 0 then SessionState.Active else SessionState.Pending, None, None, None))
  }

  lemma SameFirst(r: Room, q: Room, xs: seq<Session>)
    requires q.members == r.members && q.challenger == r.challenger
    ensures FirstSessions(r, xs) <==> FirstSessions(q, xs)
  {
  }

  lemma FirstOnes(r: Room)
    ensures FirstSessions(r, NewSessions(Listing(JoinTimes(r), ActiveAudience(r)), r.challenger))
  {
    EveryoneHasOne(r);
    OnesInOrder(r);
    hide Listing;
    var order := Listing(JoinTimes(r), ActiveAudience(r));
    var xs := NewSessions(order, r.challenger);
    forall x | x in xs ensures x.audience in ActiveAudience(r) {
      var i :| 0 <= i < |xs| && xs[i] == x;
      assert order[i] in order;
    }
  }

  lemma EveryoneHasOne(r: Room)
    ensures var xs := NewSessions(Listing(JoinTimes(r), ActiveAudience(r)), r.challenger);
      forall u | u in r.members && r.members[u].role.Audience? && r.members[u].leftAt.None? ::
        exists x :: x in xs && x.audience == u
  {
    var order := Listing(JoinTimes(r), ActiveAudience(r));
    hide Listing, JoinTimes;
    var xs := NewSessions(order, r.challenger);
    forall u | u in r.members && r.members[u].role.Audience? && r.members[u].leftAt.None?
      ensures exists x :: x in xs && x.audience == u
    {
      assert u in order;
      var i :| 0 <= i < |order| && order[i] == u;
      assert xs[i] in xs;
    }
  }

  lemma OnesInOrder(r: Room)
    ensures var xs := NewSessions(Listing(JoinTimes(r), ActiveAudience(r)), r.challenger);
      forall i, j | 0 <= i < j < |xs| :: xs[i].audience in r.members && xs[j].audience in r.members && (
        var a := r.members[xs[i].audience].joinedAt; var b := r.members[xs[j].audience].joinedAt;
        a < b || (a == b && xs[i].audience < xs[j].audience))
  {
    var order := Listing(JoinTimes(r), ActiveAudience(r));
    hide Listing;
    forall i, j | 0 <= i < j < |order|
      ensures order[i] in ActiveAudience(r) && order[j] in ActiveAudience(r) && Before(JoinTimes(r), order[i], order[j])
    {
      assert order[i] in order && order[j] in order;
    }
  }

  // ----- Refusals -----

  /** Why a reachable room refuses a request: the phase, then the person, then the rest. */
  function Reason(s: Slice, a: Action): Error {
    var r := s.room;
    match a
    case GiveAnswer(_, _) => if r.state.Questioning? then NotChallenger else InvalidAnswerSubmission
    case GiveVote(user, _) =>
      if !r.state.Voting? then InvalidVotingState else if user in Panel(r) then DuplicateVote else InvalidVoter
    case Ask(id, user, _) =>
      if id == 0 || id > |r.sessions| then SessionNotFound
      else if user != r.sessions[id - 1].audience then SessionUnauthorized
      else if !r.sessions[id - 1].state.Active? then InvalidSessionState
      else if r.sessions[id - 1].question.Some? then DuplicateSessionQuestion
      else InvalidPayload
    case Respond(id, user, _) =>
      if id == 0 || id > |r.sessions| then SessionNotFound
      else if user != r.challenger then SessionUnauthorized
      else if r.sessions[id - 1].question.None? then InvalidSessionState
      else if r.sessions[id - 1].answer.Some? then DuplicateSessionAnswer
      else if r.sessions[id - 1].state.Completed? then InvalidSessionState
      else InvalidPayload
    case Judge(id, user, _) =>
      if id == 0 || id > |r.sessions| then SessionNotFound
      else if user != r.sessions[id - 1].audience then SessionUnauthorized
      else InvalidSessionState
    case Choose(user, _) =>
      if !r.state.FinalSelection? then InvalidFinalSelectionState
      else if user != r.challenger then FinalSelectionUnauthorized
      else NotEligibleFinalist
    case Expire(_) => NotPossible
  }

  /** The states a session can be in, and what its columns hold there. */
  lemma SessionShape(c: Config, r: Room, timer: Option<Timer>, i: nat)
    requires RoomInv(c, r, timer) && i < |r.sessions|
    ensures var x := r.sessions[i];
      && x.challenger == r.challenger
      && (x.state.Pending? || x.state.Active? || x.state.Voting? || x.state.Completed?)
      && (x.state.Pending? ==> x.question.None?)
      && (x.state.Active? ==> x.answer.None?)
      && (x.state.Voting? ==> x.answer.Some? && x.vote.None?)
  {
    if r.state.OneOnOne? || r.state.FinalSelection? {
      SessionRowsOf(c, r, timer);
      EachSessionFits(c, r);
    } else if r.state.Completed? {
      EndOf(c, r, timer);
    }
    hide Roster, IsWalk, SessionsInv, Listing, Ballots, AnsweredUpTo, Benched, TimerFits;
  }

  lemma PublicRefusals(c: Config, s: Slice, a: Action)
    requires RoomInv(c, s.room, s.timer) && (a.GiveAnswer? || a.GiveVote?) && Step(c, s, a).Refused?
    ensures Step(c, s, a) == Refused(Reason(s, a), s)
  {
    if a.GiveAnswer? {
      AnswerTurn(c, s, a.user, a.text);
    } else {
      VoteTurn(c, s, a.user, a.choice);
      if s.room.state.Voting? {
        VotingRoster(c, s.room, s.timer);
      }
    }
    hide RoomInv, VoteOf, FinalizeVoting;
  }

  lemma VotingRoster(c: Config, r: Room, timer: Option<Timer>)
    requires RoomInv(c, r, timer) && r.state.Voting?
    ensures ActiveAudience(r) == Panel(r) && r.challenger !in Panel(r)
  {
    hide IsWalk, VoteOf, AnsweredUpTo, Ballots;
  }

  lemma PrivateRefusals(c: Config, s: Slice, a: Action)
    requires RoomInv(c, s.room, s.timer) && (a.Ask? || a.Respond? || a.Judge?) && Step(c, s, a).Refused?
    ensures Step(c, s, a) == Refused(Reason(s, a), s)
  {
    hide RoomInv, Text.Strip, ActivateNextSession, Judged;
    if HasSession(s.room, a.session) {
      SessionShape(c, s.room, s.timer, a.session - 1);
    }
    match a
    case Ask(id, user, text) =>
      assert SubmitSessionQuestion(c, s, id, user, text) == Refused(Reason(s, a), s);
    case Respond(id, user, text) =>
      assert SubmitSessionAnswer(s, id, user, text) == Refused(Reason(s, a), s);
    case Judge(id, user, choice) =>
      assert SubmitSessionVote(s, id, user, choice) == Refused(Reason(s, a), s);
  }

  lemma FinalRefusals(c: Config, s: Slice, a: Action)
    requires RoomInv(c, s.room, s.timer) && a.Choose? && Step(c, s, a).Refused?
    ensures Step(c, s, a).error == Reason(s, a)
  {
    hide RoomInv, Finalists, Settled, Paired, Eliminate, Roster, SessionRows, AllOver, Remaining;
    if s.room.state.FinalSelection? {
      FinalParts(c, s.room, s.timer);
      ChallengerIsNoFinalist(c, s.room);
    }
  }

  /**
   A refusal names its reason and, a choice of a finalist apart, leaves everything as it was.  In a
   reachable room nobody is told of a duplicate public answer, session vote or match: those checks
   never fail there.
   */
  lemma RefusalsSayWhy(c: Config, s: Slice, a: Action)
    requires RoomInv(c, s.room, s.timer) && Step(c, s, a).Refused?
    ensures Step(c, s, a).error == Reason(s, a)
    ensures !a.Choose? ==> Step(c, s, a).next == s
  {
    hide RoomInv, Reason, SubmitAnswer, SubmitVote, SubmitSessionQuestion, SubmitSessionAnswer, SubmitSessionVote, CreateMatch;
    match a
    case GiveAnswer(_, _) => PublicRefusals(c, s, a);
    case GiveVote(_, _) => PublicRefusals(c, s, a);
    case Ask(_, _, _) => PrivateRefusals(c, s, a);
    case Respond(_, _, _) => PrivateRefusals(c, s, a);
    case Judge(_, _, _) => PrivateRefusals(c, s, a);
    case Choose(_, _) => FinalRefusals(c, s, a);
    case Expire(_) => ImpossibleExpiry(c, s, a);
  }

  lemma ImpossibleExpiry(c: Config, s: Slice, a: Action)
    requires a.Expire? && Step(c, s, a).Refused?
    ensures Step(c, s, a) == Refused(Reason(s, a), s)
  {
  }

  // ----- Public answers -----

  /** An answer to an earlier question brings the next question; the last one brings the public vote. */
  lemma AnswerChanges(c: Config, s: Slice, user: UserId, text: string)
    requires RoomInv(c, s.room, s.timer) && SubmitAnswer(c, s, user, text).Ok?
    ensures var r := s.room; var t := SubmitAnswer(c, s, user, text).next;
      var answered := r.answers + [Domain.Answer(r.questions[|r.answers|], r.challenger, text)];
      && r.state.Questioning? && user == r.challenger && t.users == s.users
      && if |r.answers| + 1 < c.rounds
         then t == s.(room := r.(answers := answered, round := r.round + 1, question := Some(r.questions[|r.answers| + 1])))
         else t == s.(room := r.(answers := answered, state := RoomState.Voting,
                                 history := r.history + [Move(RoomState.Questioning, RoomState.Voting)]),
                      timer := Some(Timer(VotingTimer, None, Some(r.round))))
  {
    hide IsWalk, HasAnswer, AllActive, Distinct;
  }

  // ----- The public vote -----

  /** Somebody of the panel other than u has not voted. */
  ghost predicate OthersMissing(r: Room, u: UserId) {
    exists v :: v in Panel(r) && v != u && forall x | x in r.votes :: x.voter != v
  }

  lemma Missing(c: Config, r: Room, u: UserId, choice: Choice)
    requires Countable(c, r) && VoteError(r, u).None?
    ensures var q := r.(votes := r.votes + [Domain.Vote(r.round, u, choice)]);
      VotesIn(q.votes, q.round) >= |ActiveAudience(q)| <==> !OthersMissing(r, u)
  {
    var q := r.(votes := r.votes + [Domain.Vote(r.round, u, choice)]);
    var s := Slice(r, None, map[], 0);
    BallotAdded(c, s, u, choice);
    assert q == CastVote(s, u, choice).room;
    hide Countable, VoteError;
    CountableParts(c, q);
    CountableParts(c, r);
    VotePigeonhole(c, q);
    hide Roster, Ballots;
    forall v ensures v in Silent(q) <==> v in Panel(r) && v != u && forall x | x in r.votes :: x.voter != v {
      SilentIs(r, q, u, choice, v);
    }
    if Silent(q) != {} {
      var v :| v in Silent(q);
    }
    hide Silent, Panel;
  }

  lemma CountableParts(c: Config, r: Room)
    requires Countable(c, r)
    ensures Roster(c, r) && AllActive(r) && Ballots(r) && ActiveAudience(r) == Panel(r) && r.state.Voting? && r.sessions == []
  {
    hide IsWalk, AnsweredUpTo;
    assert ActiveAudience(r) == Panel(r);
  }

  lemma HasVoted(votes: seq<Vote>, round: nat, v: UserId)
    requires forall i | 0 <= i < |votes| :: votes[i].round == round
    ensures VoteOf(votes, round, v).None? <==> forall x | x in votes :: x.voter != v
  {
    VoteFound(votes, round, v);
    hide VoteOf;
    forall i | 0 <= i < |votes| ensures votes[i] in votes {}
  }

  lemma SilentIs(r: Room, q: Room, u: UserId, choice: Choice, v: UserId)
    requires q == r.(votes := r.votes + [Domain.Vote(r.round, u, choice)])
    requires Ballots(r) && ActiveAudience(q) == Panel(q)
    ensures v in Silent(q) <==> v in Panel(r) && v != u && forall x | x in r.votes :: x.voter != v
  {
    assert Panel(q) == Panel(r);
    hide VoteOf, Panel;
    HasVoted(q.votes, q.round, v);
  }

  predicate VotedYes(r: Room, u: UserId) {
    exists x :: x in r.votes && x.voter == u && x.choice.Yes?
  }

  /** Whoever of the panel has not voted Yes leaves, and the challenger too when nobody has. */
  ghost predicate Leaves(r: Room, u: UserId) {
    if u == r.challenger then forall v | v in Panel(r) :: !VotedYes(r, v) else !VotedYes(r, u)
  }

  /** The rows and users once the votes cast in s have been counted. */
  ghost predicate RowsCounted(s: Slice, members: map<UserId, Member>, users: map<UserId, User>) {
    var r := s.room;
    && members.Keys == r.members.Keys && users.Keys == s.users.Keys
    && (forall u | u in r.members :: members[u] ==
         if Leaves(r, u) then r.members[u].(status := Status.Eliminated, leftAt := Some(s.now)) else r.members[u])
    && (forall u | u in s.users :: users[u] ==
         if u in r.members && Leaves(r, u) then s.users[u].(state := UserState.Waiting) else s.users[u])
  }

  /**
   The public vote of s has been counted: whoever voted Yes stays, everybody else is out, and the room
   goes on to its sessions if somebody stays and is over otherwise.
   */
  ghost predicate Counted(s: Slice, t: Slice) {
    var r := s.room; var q := t.room;
    && q == r.(state := q.state, members := q.members, sessions := q.sessions,
               history := r.history + [Move(RoomState.Voting, RoomState.Elimination)] + [Move(RoomState.Elimination, q.state)])
    && RowsCounted(s, q.members, t.users) && t.now == s.now
    && (if exists u :: u in Panel(r) && VotedYes(r, u)
        then q.state.OneOnOne? && FirstSessions(q, q.sessions) && t.timer == Some(Timer(AskTimer, Some(1), None))
        else q.state.Completed? && q.sessions == [] && t.timer.None?)
  }

  /**
   The public vote goes on exactly as long as somebody of the panel has not voted, whatever the votes
   say; while it goes on, a vote changes nothing but the list of votes.
   */
  lemma VoteEndsWithTheLast(c: Config, s: Slice, u: UserId, choice: Choice)
    requires RoomInv(c, s.room, s.timer) && SubmitVote(s, u, choice).Ok?
    ensures var t := SubmitVote(s, u, choice).next; var votes := s.room.votes + [Domain.Vote(s.room.round, u, choice)];
      && (t.room.state.Voting? <==> exists v :: v in Panel(s.room) && v != u && forall x | x in s.room.votes :: x.voter != v)
      && (t.room.state.Voting? ==> t == s.(room := s.room.(votes := votes)))
      && (!t.room.state.Voting? ==> Counted(s.(room := s.room.(votes := votes)), t))
  {
    hide Counted, RoomInv, FinalizeVoting, VoteError, VotesIn, ActiveAudience, Countable, Panel;
    VotingIsCountable(c, s, u, choice);
    Missing(c, s.room, u, choice);
    FinalizedCounts(c, CastVote(s, u, choice));
  }

  lemma VotingIsCountable(c: Config, s: Slice, u: UserId, choice: Choice)
    requires RoomInv(c, s.room, s.timer) && VoteError(s.room, u).None?
    ensures Countable(c, s.room) && Countable(c, CastVote(s, u, choice).room)
    ensures s.timer == Some(Timer(VotingTimer, None, Some(s.room.round))) && s.room.state.Voting?
  {
    hide IsWalk, AnsweredUpTo, Ballots, Roster, VoteOf, ActiveAudience;
    assert Countable(c, s.room);
    BallotAdded(c, s, u, choice);
  }

  lemma FinalizedCounts(c: Config, s: Slice)
    requires Countable(c, s.room) && (s.timer.None? || s.timer.value.kind.VotingTimer?)
    ensures Counted(s, FinalizeVoting(s)) && !FinalizeVoting(s).room.state.Voting?
  {
    hide FinalizeVoting, Countable, YesVoters, Panel, ActiveAudience, Tally, Keepers, Roster, VotedYes, RowsCounted, Moved,
      FirstSessions;
    var s1 := Moved(s.(timer := None), RoomState.Elimination);
    CountableParts(c, s.room);
    LeavesVoting(s.(timer := None));
    FinalizeUnfolds(c, s);
    LeavingStaysSound(c, s.(timer := None));
    TallyRows(c, s1);
    TallyCounts(c, s, s1);
    YesIsYes(c, s.room);
    var t := Tally(s1);
    if YesVoters(s.room) == {} {
      EndsWithoutSessions(t);
    } else {
      var u :| u in YesVoters(s.room);
      StartsSessions(t);
    }
  }

  lemma LeavesVoting(s: Slice)
    requires s.room.state.Voting? && s.timer.None?
    ensures Moved(s, RoomState.Elimination) ==
      s.(room := s.room.(state := RoomState.Elimination,
                         history := s.room.history + [Move(RoomState.Voting, RoomState.Elimination)]))
  {
  }

  lemma EndsWithoutSessions(t: Slice)
    requires t.timer.None? && t.room.state.Elimination?
    ensures Moved(t, RoomState.Completed) ==
      t.(room := t.room.(state := RoomState.Completed,
                         history := t.room.history + [Move(RoomState.Elimination, RoomState.Completed)]))
  {
  }

  lemma StartsSessions(t: Slice)
    requires t.timer.None? && t.room.state.Elimination? && t.room.sessions == [] && ActiveAudience(t.room) != {}
    ensures var u := Moved(t, RoomState.OneOnOne);
      && u == t.(room := t.room.(state := RoomState.OneOnOne, sessions := u.room.sessions,
                                 history := t.room.history + [Move(RoomState.Elimination, RoomState.OneOnOne)]),
                 timer := Some(Timer(AskTimer, Some(1), None)))
      && FirstSessions(u.room, u.room.sessions)
  {
    hide FirstSessions, Listing;
    FirstOnes(Committed(t.room, RoomState.OneOnOne));
    SameFirst(Moved(t, RoomState.OneOnOne).room, Committed(t.room, RoomState.OneOnOne), Moved(t, RoomState.OneOnOne).room.sessions);
    hide JoinTimes;
  }

  lemma AudienceIsPanel(r: Room)
    requires Ballots(r) && forall u | u in r.members :: r.members[u].leftAt.None?
    ensures ActiveAudience(r) == Panel(r) && Keepers(r) == YesVoters(r)
  {
    hide VoteOf;
  }

  lemma LeaversAre(c: Config, r: Room)
    requires Roster(c, r) && forall u :: u in YesVoters(r) <==> u in Panel(r) && VotedYes(r, u)
    ensures forall u | u in r.members :: Leaves(r, u) <==>
      u in Panel(r) - YesVoters(r) || (u == r.challenger && YesVoters(r) == {})
  {
    hide VotedYes, YesVoters;
    if YesVoters(r) != {} {
      var v :| v in YesVoters(r);
    }
  }

  /** The elimination commit releases exactly those who leave. */
  lemma TallyCounts(c: Config, s: Slice, s1: Slice)
    requires Roster(c, s.room) && AllActive(s.room) && Ballots(s.room)
    requires s1 == s.(room := s1.room, timer := s1.timer)
    requires s1.room == s.room.(state := s1.room.state, history := s1.room.history)
    ensures RowsCounted(s, Tally(s1).room.members, Tally(s1).users)
    ensures Tally(s1) == s1.(room := s1.room.(members := Tally(s1).room.members), users := Tally(s1).users)
  {
    hide VotedYes, VoteOf;
    forall u ensures u in YesVoters(s.room) <==> u in Panel(s.room) && VotedYes(s.room, u) {
      YesFound(s.room, u);
    }
    AudienceIsPanel(s.room);
    assert Keepers(s1.room) == YesVoters(s.room) && ActiveAudience(s1.room) == Panel(s.room);
    hide YesVoters, Keepers, ActiveAudience;
    LeaversAre(c, s.room);
    hide Leaves;
  }

  lemma LeavingStaysSound(c: Config, s: Slice)
    requires Countable(c, s.room)
    ensures var q := Moved(s, RoomState.Elimination).room;
      && Roster(c, q) && AllActive(q) && Panel(q) == Panel(s.room) && YesVoters(q) == YesVoters(s.room)
      && q.challenger == s.room.challenger && q.challenger in q.members && q.members == s.room.members
      && Panel(q) <= q.members.Keys && q.votes == s.room.votes
  {
    hide IsWalk, AnsweredUpTo, Ballots, VoteOf;
    var q := Moved(s, RoomState.Elimination).room;
    assert Panel(q) == Panel(s.room);
    assert YesVoters(q) == YesVoters(s.room);
  }

  /** Counting the dictionary's Yes entries is counting the Yes votes. */
  lemma YesIsYes(c: Config, r: Room)
    requires Countable(c, r)
    ensures forall u :: u in YesVoters(r) <==> u in Panel(r) && VotedYes(r, u)
  {
    hide Roster, IsWalk, AnsweredUpTo, AllActive, Panel;
    forall u ensures VoteOf(r.votes, r.round, u) == Some(Yes) <==> VotedYes(r, u) {
      VoteFound(r.votes, r.round, u);
      YesFound(r, u);
    }
    hide VoteOf, VotedYes;
  }

  lemma YesFound(r: Room, u: UserId)
    requires Ballots(r)
    ensures VoteOf(r.votes, r.round, u) == Some(Yes) <==> VotedYes(r, u)
  {
    VoteFound(r.votes, r.round, u);
    hide VoteOf;
    if x :| x in r.votes && x.voter == u && x.choice.Yes? {
      var i :| 0 <= i < |r.votes| && r.votes[i] == x;
    }
  }

  // ----- Private sessions -----

  /** The session k has been asked this, and the time to reply runs. */
  ghost predicate IsAsked(s: Slice, t: Slice, k: nat, text: string) {
    k < |s.room.sessions|
    && t == s.(room := s.room.(sessions := s.room.sessions[k := s.room.sessions[k].(question := Some(text))]),
               timer := Some(Timer(ReplyTimer, Some(k + 1), None)))
  }

  /** The session k has been replied to with this, and the time to vote runs. */
  ghost predicate IsReplied(s: Slice, t: Slice, k: nat, text: string) {
    k < |s.room.sessions|
    && t == s.(room := s.room.(sessions := s.room.sessions[k :=
                 s.room.sessions[k].(answer := Some(text), state := SessionState.Voting)]),
               timer := Some(Timer(JudgeTimer, Some(k + 1), None)))
  }

  lemma AskChanges(c: Config, s: Slice, id: nat, user: UserId, text: string)
    requires RoomInv(c, s.room, s.timer) && SubmitSessionQuestion(c, s, id, user, text).Ok?
    ensures IsAsked(s, SubmitSessionQuestion(c, s, id, user, text).next, Current(s.room.sessions), Text.Strip(text))
  {
    hide RoomInv, Text.Strip, Current;
    OpenSession(c, s, id);
  }

  lemma ReplyChanges(c: Config, s: Slice, id: nat, user: UserId, text: string)
    requires RoomInv(c, s.room, s.timer) && SubmitSessionAnswer(s, id, user, text).Ok?
    ensures IsReplied(s, SubmitSessionAnswer(s, id, user, text).next, Current(s.room.sessions), Text.Strip(text))
  {
    hide RoomInv, Text.Strip, Current;
    ReplyTurn(c, s, id, user, text);
  }

  /** A question or an answer fills one column of the current session, trimmed, and the next timer of that session starts. */
  lemma ExchangeChanges(c: Config, s: Slice, id: nat, user: UserId, text: string)
    requires RoomInv(c, s.room, s.timer)
    ensures var asked := SubmitSessionQuestion(c, s, id, user, text);
      asked.Ok? ==> IsAsked(s, asked.next, Current(s.room.sessions), Text.Strip(text))
    ensures var replied := SubmitSessionAnswer(s, id, user, text);
      replied.Ok? ==> IsReplied(s, replied.next, Current(s.room.sessions), Text.Strip(text))
  {
    hide RoomInv, Text.Strip, Current, IsAsked, IsReplied, SubmitSessionQuestion, SubmitSessionAnswer;
    if SubmitSessionQuestion(c, s, id, user, text).Ok? {
      AskChanges(c, s, id, user, text);
    }
    if SubmitSessionAnswer(s, id, user, text).Ok? {
      ReplyChanges(c, s, id, user, text);
    }
  }

  /** The participant row of somebody whose session ended with this vote, or without any. */
  function EndedRow(m: Member, vote: Option<Choice>, now: Time): Member {
    if vote == Some(Yes) then m.(status := Finalist) else m.(status := Status.Eliminated, leftAt := Some(now))
  }

  /** The user of somebody whose session ended: still in the game after a Yes, waiting otherwise. */
  function EndedUser(u: User, vote: Option<Choice>): User {
    if vote == Some(Yes) then u else u.(state := UserState.Waiting)
  }

  /** The room once its session k has ended with this vote, or without any, before anything follows from it. */
  function SessionOver(s: Slice, k: nat, vote: Option<Choice>): Slice
    requires k < |s.room.sessions| && s.room.sessions[k].audience in s.room.members
  {
    var r := s.room;
    var x := r.sessions[k];
    var u := x.audience;
    s.(room := r.(sessions := r.sessions[k := x.(vote := vote, state := SessionState.Completed)],
                  members := r.members[u := EndedRow(r.members[u], vote, s.now)]),
       users := if u in s.users then s.users[u := EndedUser(s.users[u], vote)] else s.users,
       timer := None)
  }

  /** A finalist who is not the one chosen. */
  predicate LosesOut(r: Room, u: UserId, v: UserId) {
    v != u && v in r.members && r.members[v].role.Audience? && r.members[v].leftAt.None? && r.members[v].status.Finalist?
  }

  /** The rows once the challenger is matched with u. */
  ghost predicate RowsPaired(r: Room, members: map<UserId, Member>, u: UserId, now: Time) {
    && members.Keys == r.members.Keys
    && (forall v | v in r.members :: members[v] ==
         if v == r.challenger || v == u then r.members[v].(status := Selected)
         else if LosesOut(r, u, v) then r.members[v].(status := Status.Eliminated, leftAt := Some(now))
         else r.members[v])
  }

  /** And the users. */
  ghost predicate UsersPaired(r: Room, before: map<UserId, User>, after: map<UserId, User>, u: UserId) {
    && after.Keys == before.Keys
    && (forall v | v in before :: after[v] ==
         if v == r.challenger || v == u then before[v].(state := UserState.Matched)
         else if LosesOut(r, u, v) then before[v].(state := UserState.Waiting)
         else before[v])
  }

  /** The room ends with its challenger matched with u: both are selected, and every other finalist is released. */
  ghost predicate PairsOff(s: Slice, t: Slice, u: UserId) {
    var r := s.room; var q := t.room;
    && q == r.(state := RoomState.Completed, members := q.members,
               pairing := Some(Pairing(r.challenger, u, MatchStatus.Created, WaitingForContacts, [])),
               history := r.history + [Move(r.state, RoomState.Matched)] + [Move(RoomState.Matched, RoomState.Completed)])
    && RowsPaired(r, q.members, u, s.now) && UsersPaired(r, s.users, t.users, u)
    && t.timer.None? && t.now == s.now
  }

  /** The room ends without a match, and its challenger is released. */
  ghost predicate NobodyLeft(s: Slice, t: Slice) {
    var r := s.room; var host := r.challenger;
    && host in r.members
    && t == s.(room := r.(state := RoomState.Completed, history := r.history + [Move(r.state, RoomState.Completed)],
                          members := r.members[host := r.members[host].(status := Status.Eliminated, leftAt := Some(s.now))]),
               users := if host in s.users then s.users[host := s.users[host].(state := UserState.Waiting)] else s.users,
               timer := None)
  }

  /** All sessions have ended: the number of those who said Yes decides. */
  ghost predicate LastEnds(m: Slice, t: Slice) {
    var yes := SaidYes(m.room.sessions);
    if |yes| > 1 then
      t == m.(room := m.room.(state := RoomState.FinalSelection,
                              history := m.room.history + [Move(RoomState.OneOnOne, RoomState.FinalSelection)]),
              timer := Some(Timer(FinalTimer, None, None)))
    else if yes == {} then NobodyLeft(m, t)
    else forall u | u in yes :: PairsOff(m, t, u)
  }

  /**
   The session k of s has ended with this vote, or without any: its row, its audience member's row and
   that member's user changed; then the next session is active under its own question timer, or the
   votes of all sessions decide.  Nothing else changed.
   */
  ghost predicate SessionEnds(s: Slice, t: Slice, k: nat, vote: Option<Choice>) {
    && k < |s.room.sessions| && s.room.sessions[k].audience in s.room.members
    && var m := SessionOver(s, k, vote);
       if k + 1 < |s.room.sessions| then
         t == m.(room := m.room.(sessions := m.room.sessions[k + 1 := s.room.sessions[k + 1].(state := SessionState.Active)]),
                 timer := Some(Timer(AskTimer, Some(k + 2), None)))
       else LastEnds(m, t)
  }

  /** The moment between two sessions. */
  ghost predicate Between(s: Slice, m: Slice, k: nat, vote: Option<Choice>) {
    && k < |s.room.sessions| && s.room.sessions[k].audience in s.room.members
    && m.(timer := None) == SessionOver(s, k, vote)
  }

  lemma BetweenPassesOn(c: Config, s: Slice, m: Slice, k: nat, vote: Option<Choice>)
    requires Between(s, m, k, vote) && AfterSession(c, m) && Current(m.room.sessions) == k + 1 < |s.room.sessions|
    ensures SessionEnds(s, ActivateNextSession(m), k, vote)
  {
    hide AfterSession, ActivateNextSession, Current, LastEnds, EndedRow, EndedUser;
    NextActivated(c, m);
  }

  lemma AfterLast(c: Config, m: Slice)
    requires AfterSession(c, m) && Current(m.room.sessions) == |m.room.sessions|
    ensures LastEnds(m.(timer := None), ActivateNextSession(m))
  {
    hide AfterSession, ActivateNextSession, SaidYes, YesVoters, Roster, SessionRows, AllOver, Current, Running, Remaining,
      Finalists, PairsOff, NobodyLeft, CloseSessions;
    ActivateCloses(c, m);
    BeforeClosing(c, m);
    LastParts(c, m);
    SessionsDecide(c, m.room);
    ChallengerIsNoFinalist(c, m.room);
    var yes := SaidYes(m.room.sessions);
    var m0 := m.(timer := None);
    if |yes| > 1 {
      ManyClose(m0);
    } else if yes == {} {
      NoneClose(m0);
    } else {
      var u :| u in yes;
      assert |yes - {u}| == 0;
      assert yes == {u};
      OneCloses(m0, u);
    }
  }

  lemma ManyClose(m: Slice)
    requires m.room.state.OneOnOne? && m.timer.None? && |Finalists(m.room)| > 1
    ensures CloseSessions(m) ==
      m.(room := m.room.(state := RoomState.FinalSelection,
                         history := m.room.history + [Move(RoomState.OneOnOne, RoomState.FinalSelection)]),
         timer := Some(Timer(FinalTimer, None, None)))
  {
    hide Finalists;
  }

  lemma NoneClose(m: Slice)
    requires m.room.state.OneOnOne? && m.timer.None? && Finalists(m.room) == {}
    requires m.room.challenger in m.room.members && m.room.members[m.room.challenger].leftAt.None?
    ensures NobodyLeft(m, CloseSessions(m))
  {
    hide Finalists, Dismissed, WithState;
    OneRow(m.room.members, m.room.challenger, Finalist, m.now);
    OneUser(m.users, m.room.challenger);
  }

  lemma OneCloses(m: Slice, u: UserId)
    requires m.room.state.OneOnOne? && m.timer.None? && m.room.pairing.None? && Finalists(m.room) == {u}
    requires m.room.challenger != u
    ensures PairsOff(m, CloseSessions(m), u)
  {
    hide PairsOff, Finalists, CreateMatchForSingleSurvivor;
    assert CloseSessions(m) == CreateMatchForSingleSurvivor(m, u);
    EliminateNobody(Paired(m, u));
    assert Finalists(m.room) - {u} == {};
    PairingOff(m, u);
    SurvivorPairs(m, u);
  }

  lemma SurvivorPairs(m: Slice, u: UserId)
    requires m.room.pairing.None?
    ensures CreateMatchForSingleSurvivor(m, u) == Settled(Paired(m, u))
  {
    hide Settled;
  }

  /** Pairing, releasing the other finalists and moving through MATCHED is all that a match does. */
  lemma PairingOff(s: Slice, u: UserId)
    requires s.timer.None? && (s.room.state.OneOnOne? || s.room.state.FinalSelection?)
    requires s.room.challenger !in Finalists(s.room)
    ensures PairsOff(s, Settled(Eliminate(Paired(s, u), Finalists(s.room) - {u})), u)
  {
    LosersAre(s.room, u);
    PairedRows(s, u);
    PairedUsers(s, u);
    hide RowsPaired, UsersPaired, Finalists, Settled, Dismissed, WithStatus, WithState;
    SettledIs(Eliminate(Paired(s, u), Finalists(s.room) - {u}));
  }

  lemma LosersAre(r: Room, u: UserId)
    ensures forall v :: v in Finalists(r) - {u} <==> LosesOut(r, u, v)
  {
  }

  lemma PairedRows(s: Slice, u: UserId)
    requires s.room.challenger !in Finalists(s.room)
    ensures RowsPaired(s.room, Eliminate(Paired(s, u), Finalists(s.room) - {u}).room.members, u, s.now)
  {
    LosersAre(s.room, u);
    hide Finalists, WithState, LosesOut;
  }

  lemma PairedUsers(s: Slice, u: UserId)
    requires s.room.challenger !in Finalists(s.room)
    ensures UsersPaired(s.room, s.users, Eliminate(Paired(s, u), Finalists(s.room) - {u}).users, u)
  {
    LosersAre(s.room, u);
    hide Finalists, WithStatus, Dismissed, LosesOut;
  }

  lemma BetweenConcludes(c: Config, s: Slice, m: Slice, k: nat, vote: Option<Choice>)
    requires Between(s, m, k, vote) && AfterSession(c, m) && Current(m.room.sessions) == k + 1 == |s.room.sessions|
    ensures SessionEnds(s, ActivateNextSession(m), k, vote)
  {
    hide AfterSession, ActivateNextSession, Current, SaidYes, LastEnds, EndedRow, EndedUser;
    AfterLast(c, m);
  }

  lemma NextIndex(c: Config, m: Slice, k: nat, xs: seq<Session>, y: Session)
    requires AfterSession(c, m) && k < |xs| && m.room.sessions == xs[k := y] && y.state.Completed?
    requires k == Current(xs) && InSequence(xs, k)
    ensures Current(m.room.sessions) == k + 1
  {
    hide Roster, IsWalk, SessionRows;
    CurrentIs(m.room.sessions, k + 1);
  }

  lemma BetweenEnds(c: Config, s: Slice, m: Slice, k: nat, vote: Option<Choice>)
    requires Between(s, m, k, vote) && AfterSession(c, m) && Current(m.room.sessions) == k + 1
    ensures SessionEnds(s, ActivateNextSession(m), k, vote)
  {
    hide Between, SessionEnds, AfterSession, ActivateNextSession, Current;
    SessionsBetween(s, m, k, vote);
    if k + 1 < |s.room.sessions| {
      BetweenPassesOn(c, s, m, k, vote);
    } else {
      BetweenConcludes(c, s, m, k, vote);
    }
  }

  lemma SessionsBetween(s: Slice, m: Slice, k: nat, vote: Option<Choice>)
    requires Between(s, m, k, vote)
    ensures k < |s.room.sessions| == |m.room.sessions|
  {
  }

  lemma CurrentParts(c: Config, s: Slice, id: nat)
    requires RoomInv(c, s.room, s.timer) && HasSession(s.room, id) && InProgress(s.room.sessions[id - 1].state)
    ensures id - 1 == Current(s.room.sessions) && InSequence(s.room.sessions, id - 1)
    ensures s.room.sessions[id - 1].audience in s.room.members
    ensures s.room.sessions[id - 1].state.Voting? ==> s.room.sessions[id - 1].vote.None?
    ensures s.room.sessions[id - 1].question.None? ==> s.room.sessions[id - 1].vote.None?
  {
    OnlyCurrentInProgress(c, s, id);
    InSessions(c, s.room, s.timer);
    hide RoomInv, Roster, SessionRows, InSequence, Remaining, IsWalk;
  }

  lemma JudgedBetween(s: Slice, id: nat, choice: Choice)
    requires HasSession(s.room, id) && s.room.sessions[id - 1].audience in s.room.members
    ensures Between(s, Judged(s, id, choice), id - 1, Some(choice))
  {
    JudgedIs(s, id, choice);
    var u := s.room.sessions[id - 1].audience;
    OneUser(s.users, u);
    hide Dismissed, WithStatus, WithState;
  }

  lemma OneUser(users: map<UserId, User>, u: UserId)
    ensures WithState(users, {u}, UserState.Waiting) ==
      if u in users then users[u := users[u].(state := UserState.Waiting)] else users
  {
  }

  /** A session vote ends exactly the current session. */
  lemma SessionVoteChanges(c: Config, s: Slice, id: nat, user: UserId, choice: Choice)
    requires RoomInv(c, s.room, s.timer) && SubmitSessionVote(s, id, user, choice).Ok?
    ensures SessionEnds(s, SubmitSessionVote(s, id, user, choice).next, Current(s.room.sessions), Some(choice))
  {
    hide RoomInv, Judged, ActivateNextSession, AfterSession, Between, SessionEnds, Remaining, InSequence;
    CurrentParts(c, s, id);
    JudgedKeeps(c, s, id, choice);
    JudgedBetween(s, id, choice);
    BetweenNext(c, s, Judged(s, id, choice), id - 1, Some(choice));
    BetweenEnds(c, s, Judged(s, id, choice), id - 1, Some(choice));
  }

  lemma BetweenNext(c: Config, s: Slice, m: Slice, k: nat, vote: Option<Choice>)
    requires Between(s, m, k, vote) && AfterSession(c, m) && k == Current(s.room.sessions) && InSequence(s.room.sessions, k)
    ensures Current(m.room.sessions) == k + 1
  {
    hide AfterSession, Current, InSequence;
    NextIndex(c, m, k, s.room.sessions, s.room.sessions[k].(vote := vote, state := SessionState.Completed));
  }

  lemma UnaskedBetween(s: Slice, id: nat)
    requires HasSession(s.room, id) && s.room.sessions[id - 1].audience in s.room.members
    requires s.room.sessions[id - 1].vote.None?
    ensures Between(s, Unasked(s.(timer := None), id), id - 1, None)
  {
    UnaskedIs(s.(timer := None), id);
    var x := s.room.sessions[id - 1];
    OneUser(s.users, x.audience);
    assert x.(vote := None, state := SessionState.Completed) == x.(state := SessionState.Completed);
    hide Dismissed, WithStatus, WithState;
  }

  // ----- Expiries -----

  /** What the expiry of each kind of timer does to the room that set it. */
  ghost predicate ExpiryDoes(c: Config, s: Slice, t: Slice, kind: TimerKind, pick: UserId) {
    var r := s.room;
    var k := Current(r.sessions);
    match kind
    case QuestioningTimer =>
      && t == s.(room := r.(state := RoomState.Voting, answers := t.room.answers,
                            history := r.history + [Move(RoomState.Questioning, RoomState.Voting)]),
                 timer := Some(Timer(VotingTimer, None, Some(r.round))))
      && |t.room.answers| == c.rounds && r.answers <= t.room.answers
      && (forall i | |r.answers| <= i < |t.room.answers| && i < |r.questions| ::
           t.room.answers[i] == Domain.Answer(r.questions[i], r.challenger, NO_RESPONSE))
    case VotingTimer => Counted(s, t)
    case AskTimer => SessionEnds(s, t, k, None)
    case ReplyTimer => IsReplied(s, t, k, NO_RESPONSE)
    case JudgeTimer => SessionEnds(s, t, k, Some(No))
    case FinalTimer => PairsOff(s, t, pick) && pick in Finalists(r)
  }

  lemma QuestioningExpires(c: Config, s: Slice)
    requires RoomInv(c, s.room, s.timer) && s.timer.Some? && s.timer.value.kind.QuestioningTimer?
    ensures ExpiryDoes(c, s, QuestioningTimeout(c, s.(timer := None)), QuestioningTimer, 0)
  {
    TimerTellsPhase(c, s);
    QuestioningTimeoutFills(c, s);
    hide Fillers, AnsweredBy, AskedQuestions, RoomInv;
    var t := QuestioningTimeout(c, s.(timer := None));
    forall i | |s.room.answers| <= i < |t.room.answers| && i < |s.room.questions|
      ensures t.room.answers[i] == Domain.Answer(s.room.questions[i], s.room.challenger, NO_RESPONSE)
    {
    }
  }

  lemma VotingIsSound(c: Config, r: Room, timer: Option<Timer>)
    requires RoomInv(c, r, timer) && r.state.Voting?
    ensures Countable(c, r)
  {
    hide IsWalk, AnsweredUpTo, Ballots, Roster;
  }

  lemma SameRows(s: Slice, t: Slice)
    requires Counted(s.(timer := None), t)
    ensures Counted(s, t)
  {
    hide Leaves, VotedYes, FirstSessions;
  }

  lemma VotingExpires(c: Config, s: Slice)
    requires RoomInv(c, s.room, s.timer) && s.timer.Some? && s.timer.value.kind.VotingTimer?
    ensures ExpiryDoes(c, s, VotingTimeout(s.(timer := None), s.timer.value.round), VotingTimer, 0)
  {
    hide RoomInv, FinalizeVoting, Countable, Counted;
    TimerTellsPhase(c, s);
    VotingIsSound(c, s.room, s.timer);
    FinalizedCounts(c, s.(timer := None));
    SameRows(s, FinalizeVoting(s.(timer := None)));
  }

  lemma AskExpires(c: Config, s: Slice)
    requires RoomInv(c, s.room, s.timer) && s.timer.Some? && s.timer.value.kind.AskTimer?
    ensures s.timer.value.session.Some?
    ensures SessionEnds(s, QuestionTimeout(s.(timer := None), s.timer.value.session.value), Current(s.room.sessions), None)
  {
    hide RoomInv, Unasked, ActivateNextSession, AfterSession, Between, SessionEnds, Remaining, InSequence, SessionFits, QuestionTimeout;
    SessionTimerTells(c, s);
    var id := s.timer.value.session.value;
    CurrentParts(c, s, id);
    UnaskedTimeout(s.(timer := None), id);
    UnaskedKeeps(c, s, id);
    UnaskedBetween(s, id);
    BetweenNext(c, s, Unasked(s.(timer := None), id), id - 1, None);
    BetweenEnds(c, s, Unasked(s.(timer := None), id), id - 1, None);
  }

  lemma ReplyExpires(c: Config, s: Slice)
    requires RoomInv(c, s.room, s.timer) && s.timer.Some? && s.timer.value.kind.ReplyTimer?
    ensures s.timer.value.session.Some?
    ensures ExpiryDoes(c, s, AnswerTimeout(s.(timer := None), s.timer.value.session.value), ReplyTimer, 0)
  {
    hide RoomInv, SessionFits;
    SessionTimerTells(c, s);
    ReplyUnanswered(c, s);
  }

  lemma ReplyUnanswered(c: Config, s: Slice)
    requires RoomInv(c, s.room, s.timer) && s.timer.Some? && s.timer.value.kind.ReplyTimer?
    ensures s.timer.value.session.Some? && HasSession(s.room, s.timer.value.session.value)
    ensures s.room.sessions[s.timer.value.session.value - 1].answer.None?
  {
    SessionTimerTells(c, s);
    hide RoomInv, SessionFits;
  }

  lemma JudgeExpires(c: Config, s: Slice)
    requires RoomInv(c, s.room, s.timer) && s.timer.Some? && s.timer.value.kind.JudgeTimer?
    ensures s.timer.value.session.Some?
    ensures SessionEnds(s, VoteTimeout(s.(timer := None), s.timer.value.session.value), Current(s.room.sessions), Some(No))
  {
    hide RoomInv, SubmitSessionVote, SessionEnds, SessionFits, VoteTimeout;
    SessionTimerTells(c, s);
    var id := s.timer.value.session.value;
    NoIsAccepted(c, s);
    SessionVoteChanges(c, s, id, s.room.sessions[id - 1].audience, No);
  }

  lemma NoIsAccepted(c: Config, s: Slice)
    requires RoomInv(c, s.room, s.timer) && s.timer.Some? && s.timer.value.kind.JudgeTimer?
    ensures s.timer.value.session.Some? && HasSession(s.room, s.timer.value.session.value)
    ensures var id := s.timer.value.session.value; var reply := SubmitSessionVote(s, id, s.room.sessions[id - 1].audience, No);
      reply.Ok? && VoteTimeout(s.(timer := None), id) == reply.next
  {
    hide RoomInv, ActivateNextSession, Judged, SessionFits;
    SessionTimerTells(c, s);
    var id := s.timer.value.session.value;
    SameJudgement(s, id);
  }

  lemma SameJudgement(s: Slice, id: nat)
    requires HasSession(s.room, id)
    ensures Judged(s.(timer := None), id, No) == Judged(s, id, No)
  {
    hide Dismissed, WithState;
  }

  lemma FinalExpires(c: Config, s: Slice, pick: UserId)
    requires RoomInv(c, s.room, s.timer) && s.timer.Some? && s.timer.value.kind.FinalTimer?
    requires pick in Finalists(s.room)
    ensures ExpiryDoes(c, s, FinalSelectionTimeout(s.(timer := None), pick), FinalTimer, pick)
  {
    hide RoomInv, Finalists, Roster, SessionRows, AllOver, Settled, Remaining;
    FinalTimerTells(c, s.room, s.timer);
    ChosenPairs(c, s, pick);
    SameChoice(s, pick);
    hide CreateMatch, PairsOff;
    FinalParts(c, s.room, s.timer);
  }

  lemma SameChoice(s: Slice, pick: UserId)
    requires s.timer.None? || s.timer.value.kind.FinalTimer?
    ensures CreateMatch(s.(timer := None), s.room.challenger, pick).Ok? <==> CreateMatch(s, s.room.challenger, pick).Ok?
    ensures CreateMatch(s, s.room.challenger, pick).Ok? ==>
      CreateMatch(s.(timer := None), s.room.challenger, pick) == CreateMatch(s, s.room.challenger, pick)
  {
    hide Settled, Paired, Eliminate, Finalists;
  }

  lemma ChosenPairs(c: Config, s: Slice, pick: UserId)
    requires RoomInv(c, s.room, s.timer) && s.room.state.FinalSelection? && pick in Finalists(s.room)
    ensures CreateMatch(s, s.room.challenger, pick).Ok? && PairsOff(s, CreateMatch(s, s.room.challenger, pick).next, pick)
    ensures s.timer.None? || s.timer.value.kind.FinalTimer?
  {
    hide RoomInv, Finalists, Settled, Paired, Eliminate, PairsOff, Roster, SessionRows, AllOver, Remaining;
    FinalParts(c, s.room, s.timer);
    ChallengerIsNoFinalist(c, s.room);
    PairingOff(s.(timer := None), pick);
    TimerUnread(s, CreateMatch(s, s.room.challenger, pick).next, pick);
  }

  lemma TimerUnread(s: Slice, t: Slice, u: UserId)
    ensures PairsOff(s, t, u) <==> PairsOff(s.(timer := None), t, u)
  {
  }

  /**
   The challenger's choice ends the room with that finalist; a refused choice changes nothing, except
   that the timer of the final selection is gone.
   */
  lemma ChoiceChanges(c: Config, s: Slice, user: UserId, candidate: UserId)
    requires RoomInv(c, s.room, s.timer)
    ensures var reply := CreateMatch(s, user, candidate);
      if reply.Ok? then s.room.state.FinalSelection? && PairsOff(s, reply.next, candidate)
      else reply.next == s.(timer := if s.timer.Some? && s.timer.value.kind.FinalTimer? then None else s.timer)
  {
    hide RoomInv, Finalists, Settled, Paired, Eliminate, PairsOff;
    if CreateMatch(s, user, candidate).Ok? {
      ChosenPairs(c, s, candidate);
    }
  }

  /**
   Every expiry does what its phase promises: missing public answers become placeholders, the votes
   cast so far are counted, whoever asks or votes too late in a session is out and the next session
   begins, a missing private answer becomes a placeholder, and a finalist is chosen.
   */
  lemma ExpiryChanges(c: Config, s: Slice, pick: UserId)
    requires RoomInv(c, s.room, s.timer) && Possible(s, Expire(pick))
    ensures ExpiryDoes(c, s, Expired(c, s, pick), s.timer.value.kind, pick)
  {
    hide RoomInv, QuestioningTimeout, VotingTimeout, QuestionTimeout, AnswerTimeout, VoteTimeout, FinalSelectionTimeout,
      SessionEnds, Finalists, Current;
    TimerTellsPhase(c, s);
    match s.timer.value.kind
    case QuestioningTimer => QuestioningExpires(c, s);
    case VotingTimer => VotingExpires(c, s);
    case AskTimer => AskExpires(c, s);
    case ReplyTimer => ReplyExpires(c, s);
    case JudgeTimer => JudgeExpires(c, s);
    case FinalTimer => FinalExpires(c, s, pick);
  }

  // ----- The order of the sessions -----

  /** Sessions follow one another in the order their audience members joined the room, and by id among those who joined at once. */
  lemma SessionsFollowArrival(c: Config, r: Room, timer: Option<Timer>, i: nat, j: nat)
    requires RoomInv(c, r, timer) && i < j < |r.sessions|
    ensures var u := r.sessions[i].audience; var v := r.sessions[j].audience;
      && u in r.members && v in r.members
      && (r.members[u].joinedAt < r.members[v].joinedAt || (r.members[u].joinedAt == r.members[v].joinedAt && u < v))
  {
    hide IsWalk, TimerFits, SessionFits, Listing, Ballots, AnsweredUpTo, Benched, YesVoters, SaidYes;
    RollOf(c, r, timer);
    hide PhaseInv, RoomInv;
    YesVotersArePanel(r);
    var at := JoinTimes(r);
    var order := Order(r);
    assert order[i] in order && order[j] in order;
    assert order[i] in Panel(r) && order[j] in Panel(r);
    assert Before(at, order[i], order[j]);
  }

  lemma RollOf(c: Config, r: Room, timer: Option<Timer>)
    requires RoomInv(c, r, timer) && r.sessions != []
    ensures SessionRoll(r)
  {
    hide Roster, IsWalk, TimerFits, SessionFits, Listing, Ballots, AnsweredUpTo, SessionRoll, Finalists;
  }
}
