/** The room services, updating the rows of one room in place; each call is proved to do what Protocol says. */
module Services {
  import opened Domain
  import opened Ordering
  import opened RoomStates
  import opened Protocol
  import opened RoomInvariant
  import opened QuestioningVoting
  import opened SessionSteps
  import opened RoomRuns
  import opened Text

  /** What a call reports: nothing, or the error it raised. */
  function Raised(reply: Reply): Option<Error> {
    if reply.Ok? then None else Some(reply.error)
  }

  /** The elimination of some people, then of one more. */
  lemma OneMoreReleased(s: Slice, done: set<UserId>, u: UserId)
    ensures Eliminate(Eliminate(s, done), {u}) == Eliminate(s, done + {u})
  {
  }

  class RoomServices {
    // The rooms row and the rows of the other tables that carry its id.
    var state: RoomState
    var challenger: UserId
    var round: nat
    var question: Option<QuestionId>
    var questions: seq<QuestionId>
    var members: map<UserId, Member>
    var answers: seq<Answer>
    var votes: seq<Vote>
    var sessions: seq<Session>
    var pairing: Option<Pairing>
    var history: seq<Move>

    // The room's entry in the timer registry, the users table and the clock.
    var timer: Option<Timer>
    var users: map<UserId, User>
    var now: Time

    function Rows(): Room
      reads this
    {
      Room(state, challenger, round, question, questions, members, answers, votes, sessions, pairing, history)
    }

    function View(): Slice
      reads this
    {
      Slice(Rows(), timer, users, now)
    }

    constructor (s: Slice)
      ensures View() == s
    {
      var r := s.room;
      state, challenger, round, question, questions := r.state, r.challenger, r.round, r.question, r.questions;
      members, answers, votes, sessions, pairing, history := r.members, r.answers, r.votes, r.sessions, r.pairing, r.history;
      timer, users, now := s.timer, s.users, s.now;
    }

    // ----- Timers -----

    method StartTimer(t: Timer)
      modifies this`timer
      ensures timer == Some(t)
    {
      timer := Some(t);
    }

    method CancelTimer(kind: Option<TimerKind>)
      modifies this`timer
      ensures timer == AfterCancel(old(timer), kind)
    {
      if timer.Some? && (kind.None? || timer.value.kind == kind.value) {
        timer := None;
      }
    }

    // ----- RoomStateService -----

    method StartQuestioningRound()
      modifies this`question
      ensures Rows() == StartRound(old(Rows()))
    {
      if 1 <= round <= |questions| {
        question := Some(questions[round - 1]);
      }
    }

    /** The part of a transition that is one commit: round, audit row and state. */
    method Commit(target: RoomState)
      modifies this`round, this`history, this`state
      ensures Rows() == Committed(old(Rows()), target)
    {
      if target.Questioning? {
        round := round + 1;
      }
      history := history + [Move(state, target)];
      state := target;
    }

    /** The timer of the phase a room leaves is cancelled. */
    method Leave(source: RoomState)
      modifies this`timer
      ensures timer == AfterLeaving(source, old(timer))
    {
      match source {
        case Questioning => CancelTimer(Some(QuestioningTimer));
        case Voting => CancelTimer(Some(VotingTimer));
        case OneOnOne => CancelTimer(None);
        case FinalSelection => CancelTimer(Some(FinalTimer));
        case _ =>
      }
    }

    /** What a phase begins with. */
    method Enter(target: RoomState)
      modifies this`question, this`sessions, this`timer
      ensures View() == Entered(old(View()), target)
    {
      hide Protocol.InitializeSessions, StartRound;
      match target {
        case Questioning =>
          StartQuestioningRound();
          StartTimer(Timer(QuestioningTimer, None, None));
        case Voting => StartTimer(Timer(VotingTimer, None, Some(round)));
        case OneOnOne => InitializeSessions();
        case FinalSelection => StartTimer(Timer(FinalTimer, None, None));
        case _ =>
      }
    }

    /** transition: refused without a trace, or committed together with the timers it stops and starts. */
    method Transition(target: RoomState) returns (error: Option<Error>)
      modifies this`state, this`round, this`question, this`sessions, this`history, this`timer
      ensures View() == Protocol.Transition(old(View()), target).next
      ensures error == Raised(Protocol.Transition(old(View()), target))
      ensures error.None? <==> (old(state), target) in {
        (RoomState.Waiting, RoomState.Ready), (RoomState.Ready, RoomState.Intro), (RoomState.Intro, RoomState.Questioning),
        (RoomState.Questioning, RoomState.Voting), (RoomState.Voting, RoomState.Elimination),
        (RoomState.Elimination, RoomState.Questioning), (RoomState.Elimination, RoomState.OneOnOne),
        (RoomState.Elimination, RoomState.Final), (RoomState.Elimination, RoomState.Completed),
        (RoomState.OneOnOne, RoomState.FinalSelection), (RoomState.OneOnOne, RoomState.Final),
        (RoomState.OneOnOne, RoomState.Matched), (RoomState.OneOnOne, RoomState.Completed),
        (RoomState.FinalSelection, RoomState.Matched), (RoomState.FinalSelection, RoomState.Completed),
        (RoomState.Final, RoomState.Matched), (RoomState.Final, RoomState.Completed),
        (RoomState.Matched, RoomState.Completed)}
      ensures error.None? ==>
        && state == target && history == old(history) + [Move(old(state), target)]
        && round == old(round) + if target.Questioning? then 1 else 0
      ensures error.Some? ==> View() == old(View())
    {
      TheMoves(state, target);
      var source := state;
      if !IsValidTransition(source, target) {
        return Some(InvalidTransition);
      }
      hide IsValidTransition, Entered, AfterLeaving, Committed;
      Commit(target);
      Leave(source);
      Enter(target);
      return None;
    }

    // ----- OneOnOneService: sessions -----

    /** One session for each audience member still present, in the order of (joined_at, user id). */
    method InitializeSessions()
      modifies this`sessions, this`timer
      ensures View() == Protocol.InitializeSessions(old(View()))
    {
      hide Listing, NewSessions;
      if sessions != [] {
        return;
      }
      var present := ActiveAudience(Rows());
      var order := List(JoinTimes(Rows()), present, |present|);
      assert order == Listing(JoinTimes(Rows()), present);
      hide ActiveAudience, JoinTimes;
      CreateSessions(order);
      if sessions != [] {
        StartTimer(Timer(AskTimer, Some(sessions[0].sequence), None));
      }
    }

    method CreateSessions(order: seq<UserId>)
      requires sessions == []
      modifies this`sessions
      ensures sessions == NewSessions(order, challenger)
      ensures |sessions| == |order| && (order != [] ==> sessions[0].sequence == 1)
    {
      var i := 0;
      while i < |order|
        invariant 0 <= i <= |order| && sessions == NewSessions(order, challenger)[..i]
      {
        sessions := sessions + [Session(order[i], challenger, i + 1,
                                        if i == 0 then SessionState.Active else SessionState.Pending, None, None, None)];
        i := i + 1;
      }
    }

    /** get_active_session: whether some session is in progress. */
    method HasActiveSession() returns (found: bool)
      ensures found <==> exists x | x in sessions :: InProgress(x.state)
    {
      var i := 0;
      while i < |sessions|
        invariant 0 <= i <= |sessions|
        invariant forall j | 0 <= j < i :: !InProgress(sessions[j].state)
      {
        if InProgress(sessions[i].state) {
          return true;
        }
        i := i + 1;
      }
      return false;
    }

    /** The loop over pending sessions: stale ones are closed until a live one is found and activated. */
    method ActivateFirstLive() returns (next: nat)
      modifies this`sessions
      ensures next == FirstLive(old(sessions), members, 0)
      ensures sessions == Activated(old(sessions), next)
      ensures |sessions| == |old(sessions)| && (next < |sessions| ==> sessions[next].sequence == old(sessions)[next].sequence)
    {
      ghost var before := sessions;
      ghost var f := FirstLive(before, members, 0);
      next := 0;
      while next < |sessions|
        invariant next <= f && |sessions| == |before| && FirstLive(before, members, next) == f
        invariant forall j | 0 <= j < next :: sessions[j] == Activated(before, f)[j]
        invariant forall j | next <= j < |sessions| :: sessions[j] == before[j]
      {
        if sessions[next].state.Pending? {
          if IsLive(members, sessions[next].audience) {
            sessions := sessions[next := sessions[next].(state := SessionState.Active)];
            break;
          }
          sessions := sessions[next := sessions[next].(state := SessionState.Completed)];
        }
        next := next + 1;
      }
    }

    /** One participant leaves: the row is closed and the user waits. */
    method Release(u: UserId)
      modifies this`members, this`users
      ensures View() == Eliminate(old(View()), {u})
    {
      if u in members {
        members := members[u := members[u].(status := Status.Eliminated, leftAt := Some(now))];
      }
      if u in users {
        users := users[u := users[u].(state := UserState.Waiting)];
      }
    }

    method ReleaseAll(who: set<UserId>)
      modifies this`members, this`users
      ensures View() == Eliminate(old(View()), who)
    {
      ghost var before := View();
      EliminateNobody(before);
      var left := who;
      while left != {}
        invariant left <= who && View() == Eliminate(before, who - left)
        decreases |left|
      {
        var u :| u in left;
        OneMoreReleased(before, who - left, u);
        assert who - (left - {u}) == (who - left) + {u};
        Release(u);
        left := left - {u};
      }
      assert who - left == who;
    }

    // ----- QuestioningService -----

    /** get_room_question_for_round. */
    function QuestionFor(position: nat): Option<QuestionId>
      reads this`questions
    {
      if 1 <= position <= |questions| then Some(questions[position - 1]) else None
    }

    method SubmitAnswer(c: Config, user: UserId, text: string) returns (error: Option<Error>)
      modifies this`state, this`round, this`question, this`answers, this`sessions, this`history, this`timer
      ensures View() == Protocol.SubmitAnswer(c, old(View()), user, text).next
      ensures error == Raised(Protocol.SubmitAnswer(c, old(View()), user, text))
    {
      hide Protocol.Transition, HasAnswer;
      if !state.Questioning? {
        return Some(InvalidAnswerSubmission);
      }
      if user != challenger {
        return Some(NotChallenger);
      }
      var current := QuestionFor(round);
      if current.None? {
        return Some(InvalidAnswerSubmission);
      }
      if HasAnswer(Rows(), current.value, user) {
        return Some(DuplicateAnswer);
      }
      answers := answers + [Answer(current.value, user, text)];
      if round < c.rounds {
        var next := QuestionFor(round + 1);
        if next.Some? {
          round := round + 1;
          question := next;
        }
        return None;
      }
      error := Transition(RoomState.Voting);
    }

    /** The questions answered when the questioning timer ran out. */
    method AnsweredQuestions(user: UserId) returns (answered: set<QuestionId>)
      ensures answered == AnsweredBy(Rows(), user)
    {
      answered := {};
      var i := 0;
      while i < |answers|
        invariant 0 <= i <= |answers|
        invariant forall q :: q in answered <==> exists j :: 0 <= j < i && answers[j].user == user && answers[j].question == q
      {
        if answers[i].user == user {
          answered := answered + {answers[i].question};
        }
        i := i + 1;
      }
      assert forall a | a in answers :: exists j :: 0 <= j < |answers| && answers[j] == a;
    }

    /** One placeholder for each round whose question was not answered. */
    method FillMissing(c: Config, answered: set<QuestionId>)
      modifies this`answers
      ensures answers == old(answers) + Fillers(AskedQuestions(c, old(Rows())), answered, challenger)
    {
      ghost var before := answers;
      ghost var asked := AskedQuestions(c, Rows());
      var position := 1;
      while position <= c.rounds
        invariant 1 <= position <= c.rounds + 1
        invariant answers == before + Fillers(asked[..if position - 1 <= |asked| then position - 1 else |asked|], answered, challenger)
      {
        var asking := QuestionFor(position);
        if asking.Some? {
          FillersNext(asked, position - 1, answered, challenger);
          if asking.value !in answered {
            answers := answers + [Answer(asking.value, challenger, NO_RESPONSE)];
          }
        }
        position := position + 1;
      }
      assert asked[..|asked|] == asked;
    }

    method HandleQuestioningTimeout(c: Config)
      modifies this`state, this`round, this`question, this`answers, this`sessions, this`history, this`timer
      ensures View() == QuestioningTimeout(c, old(View()))
    {
      hide Protocol.Transition, AnsweredBy, Fillers, AskedQuestions;
      if !state.Questioning? {
        return;
      }
      var answered := AnsweredQuestions(challenger);
      FillMissing(c, answered);
      var _ := Transition(RoomState.Voting);
    }

    // ----- VotingService -----

    /** The dictionary of this round's choices: a later vote of the same voter would replace an earlier one. */
    method VoteMap() returns (choices: map<UserId, Choice>)
      ensures forall u :: VoteOf(votes, round, u) == if u in choices then Some(choices[u]) else None
    {
      choices := map[];
      var i := 0;
      while i < |votes|
        invariant 0 <= i <= |votes|
        invariant forall u :: VoteOf(votes[..i], round, u) == if u in choices then Some(choices[u]) else None
      {
        assert votes[..i + 1][..i] == votes[..i];
        if votes[i].round == round {
          choices := choices[votes[i].voter := votes[i].choice];
        }
        i := i + 1;
      }
      assert votes[..|votes|] == votes;
    }

    /** One audience member stays ACTIVE or leaves. */
    method Decide(u: UserId, stays: bool)
      modifies this`members, this`users
      ensures View() == Decided(old(View()), u, stays)
    {
      if stays {
        if u in members {
          members := members[u := members[u].(status := Status.Active)];
        }
      } else {
        Release(u);
      }
    }

    /** Splits the active audience: Yes voters are kept ACTIVE, everybody else leaves. */
    method SplitAudience() returns (survivors: set<UserId>)
      modifies this`members, this`users
      ensures survivors == Keepers(old(Rows()))
      ensures View() == Split(old(View()), survivors, ActiveAudience(old(Rows())) - survivors)
    {
      hide Split, Decided, Yeses;
      ghost var before := View();
      var choices := VoteMap();
      var left := ActiveAudience(Rows());
      ghost var audience := left;
      YesesAreKeepers(Rows(), choices);
      NobodySplit(before);
      hide ActiveAudience, Keepers, VoteOf;
      var kept: set<UserId> := {};
      assert audience - left == {} && audience - left - kept == {};
      NoYeses(choices);
      while left != {}
        invariant left <= audience && kept == Yeses(audience - left, choices)
        invariant View() == Split(before, kept, audience - left - kept)
        decreases |left|
      {
        var u :| u in left;
        var stays := u in choices && choices[u].Yes?;
        OneDecided(before, kept, audience - left - kept, u, stays);
        OneMoreYes(audience, left, choices, u);
        Decide(u, stays);
        if stays {
          kept := kept + {u};
        }
        left := left - {u};
      }
      assert audience - left == audience;
      return kept;
    }

    /** The elimination commit. */
    method CommitElimination() returns (survivors: set<UserId>)
      modifies this`members, this`users
      ensures survivors == Keepers(old(Rows()))
      ensures View() == Tally(old(View()))
    {
      ghost var before := View();
      survivors := SplitAudience();
      ghost var gone := ActiveAudience(before.room) - survivors;
      if survivors == {} && challenger in members && members[challenger].leftAt.None? {
        OneDecided(before, survivors, gone, challenger, false);
        Release(challenger);
      }
      TallyIsSplit(before);
      hide Split, Tally, Keepers, ActiveAudience;
    }

    /** finalize_voting: does nothing but cancel the voting timer once the elimination is over. */
    method FinalizeVoting()
      modifies this
      ensures View() == Protocol.FinalizeVoting(old(View()))
    {
      hide Protocol.Transition, Tally, Keepers;
      CancelTimer(Some(VotingTimer));
      if !state.Voting? && !state.Elimination? {
        return;
      }
      if state.Voting? {
        var _ := Transition(RoomState.Elimination);
      }
      var survivors := CommitElimination();
      var _ := Transition(AfterElimination(survivors));
    }

    /** submit_vote: the vote that completes the count finalizes the voting. */
    method SubmitVote(voter: UserId, choice: Choice) returns (error: Option<Error>)
      modifies this
      ensures View() == Protocol.SubmitVote(old(View()), voter, choice).next
      ensures error == Raised(Protocol.SubmitVote(old(View()), voter, choice))
    {
      hide Protocol.FinalizeVoting, VoteOf, VotesIn;
      if !state.Voting? {
        return Some(InvalidVotingState);
      }
      if voter == challenger {
        return Some(InvalidVoter);
      }
      if voter !in ActiveAudience(Rows()) {
        return Some(InvalidVoter);
      }
      if VoteOf(votes, round, voter).Some? {
        return Some(DuplicateVote);
      }
      votes := votes + [Vote(round, voter, choice)];
      var submitted := CountVotes();
      if submitted >= |ActiveAudience(Rows())| {
        FinalizeVoting();
      }
      return None;
    }

    method CountVotes() returns (n: nat)
      ensures n == VotesIn(votes, round)
    {
      n := 0;
      var i := 0;
      while i < |votes|
        invariant 0 <= i <= |votes| && n == VotesIn(votes[..i], round)
      {
        assert votes[..i + 1][..i] == votes[..i];
        if votes[i].round == round {
          n := n + 1;
        }
        i := i + 1;
      }
      assert votes[..|votes|] == votes;
    }

    method HandleVotingTimeout(forRound: Option<nat>)
      modifies this
      ensures View() == VotingTimeout(old(View()), forRound)
    {
      if state.Voting? && forRound == Some(round) {
        FinalizeVoting();
      }
    }

    /**
     get_voting_status, with `user` the one who asks, if anybody; in a room whose votes are sound the
     clamp at zero is never needed.
     */
    method GetVotingStatus(c: Config, user: Option<UserId>)
      returns (phase: RoomState, total: nat, submitted: nat, remaining: nat, hasVoted: Option<bool>)
      ensures phase == state && total == |ActiveAudience(Rows())| && submitted == VotesIn(votes, round)
      ensures remaining == if total >= submitted then total - submitted else 0
      ensures Roster(c, Rows()) && AllActive(Rows()) && Ballots(Rows()) ==>
        remaining == |Silent(Rows())| && remaining + submitted == total
      ensures hasVoted.None? <==> user.None?
      ensures hasVoted.Some? ==>
        (hasVoted.value <==> exists v :: v in votes && v.round == round && v.voter == user.value)
    {
      phase := state;
      total := |ActiveAudience(Rows())|;
      submitted := CountVotes();
      hasVoted := None;
      if user.Some? {
        var found := HasVoted(user.value);
        hasVoted := Some(found);
      }
      remaining := if total - submitted >= 0 then total - submitted else 0;
      hide Roster, Ballots, ActiveAudience, Silent;
      if Roster(c, Rows()) && AllActive(Rows()) && Ballots(Rows()) {
        VotePigeonhole(c, Rows());
      }
    }

    method HasVoted(user: UserId) returns (found: bool)
      ensures found <==> exists v :: v in votes && v.round == round && v.voter == user
    {
      var i := 0;
      while i < |votes|
        invariant 0 <= i <= |votes|
        invariant forall j | 0 <= j < i :: !(votes[j].round == round && votes[j].voter == user)
      {
        if votes[i].round == round && votes[i].voter == user {
          assert votes[i] in votes;
          return true;
        }
        i := i + 1;
      }
      return false;
    }

    // ----- MatchService -----

    /** A participant is selected and its user matched. */
    method Select(u: UserId)
      modifies this`members, this`users
      ensures members == WithStatus(old(members), {u}, Selected)
      ensures users == WithState(old(users), {u}, UserState.Matched)
    {
      if u in users {
        users := users[u := users[u].(state := UserState.Matched)];
      }
      if u in members {
        members := members[u := members[u].(status := Selected)];
      }
    }

    /** The match row, its match room, and both participants. */
    method Pair(candidate: UserId)
      modifies this`pairing, this`members, this`users
      ensures View() == Paired(old(View()), candidate)
    {
      pairing := Some(Pairing(challenger, candidate, MatchStatus.Created, WaitingForContacts, []));
      Select(challenger);
      Select(candidate);
    }

    method Settle()
      modifies this`state, this`round, this`question, this`sessions, this`history, this`timer
      ensures View() == Settled(old(View()))
    {
      hide Moved, IsValidTransition;
      var error := Transition(RoomState.Matched);
      if error.None? {
        error := Transition(RoomState.Completed);
      }
    }

    method CreateMatchForSingleSurvivor(survivor: UserId)
      modifies this
      ensures View() == Protocol.CreateMatchForSingleSurvivor(old(View()), survivor)
    {
      hide Settled, Paired;
      if pairing.Some? {
        return;
      }
      Pair(survivor);
      Settle();
    }

    /** create_match: the timer is cancelled first, whatever the checks say. */
    method CreateMatch(user: UserId, candidate: UserId) returns (error: Option<Error>)
      modifies this
      ensures View() == Protocol.CreateMatch(old(View()), user, candidate).next
      ensures error == Raised(Protocol.CreateMatch(old(View()), user, candidate))
    {
      hide Settled, Paired, Eliminate, Finalists;
      CancelTimer(Some(FinalTimer));
      if !state.FinalSelection? {
        return Some(InvalidFinalSelectionState);
      }
      if user != challenger {
        return Some(FinalSelectionUnauthorized);
      }
      if candidate == user {
        return Some(NotEligibleFinalist);
      }
      if candidate !in Finalists(Rows()) {
        return Some(NotEligibleFinalist);
      }
      if pairing.Some? {
        return Some(MatchAlreadyExists);
      }
      var others := Finalists(Rows()) - {candidate};
      Pair(candidate);
      ReleaseAll(others);
      Settle();
      return None;
    }

    /** The timeout chooses whichever finalist the query returns first; `pick` tells which. */
    method HandleFinalSelectionTimeout() returns (pick: UserId)
      modifies this
      ensures View() == FinalSelectionTimeout(old(View()), pick)
      ensures old(state).FinalSelection? && Finalists(old(Rows())) != {} ==> pick in Finalists(old(Rows()))
    {
      hide Protocol.CreateMatch, Finalists;
      pick := 0;
      if !state.FinalSelection? {
        return;
      }
      var finalists := Finalists(Rows());
      if finalists == {} {
        return;
      }
      pick :| pick in finalists;
      var _ := CreateMatch(challenger, pick);
    }

    // ----- OneOnOneService: progress -----

    /** All sessions are over: many finalists go on, a single one is matched, none ends the room. */
    method CloseSessions()
      modifies this
      ensures View() == Protocol.CloseSessions(old(View()))
    {
      hide Protocol.Transition, Protocol.CreateMatchForSingleSurvivor, Eliminate, Finalists;
      var finalists := Finalists(Rows());
      if |finalists| > 1 {
        var _ := Transition(RoomState.FinalSelection);
      } else if |finalists| == 1 {
        var survivor :| survivor in finalists;
        OnlyOne(finalists, survivor);
        CreateMatchForSingleSurvivor(survivor);
      } else {
        if challenger in members && members[challenger].leftAt.None? {
          Release(challenger);
        }
        var _ := Transition(RoomState.Completed);
      }
    }

    /** activate_next_session. */
    method ActivateNextSession()
      modifies this
      ensures View() == Protocol.ActivateNextSession(old(View()))
    {
      hide Protocol.CloseSessions, Activated, IsLive;
      if !state.OneOnOne? {
        return;
      }
      var busy := HasActiveSession();
      if busy {
        return;
      }
      var next := ActivateFirstLive();
      if next < |sessions| {
        StartTimer(Timer(AskTimer, Some(sessions[next].sequence), None));
      } else {
        CancelTimer(None);
        CloseSessions();
      }
    }

    method SubmitQuestion(c: Config, id: nat, user: UserId, text: string) returns (error: Option<Error>)
      modifies this`sessions, this`timer
      ensures View() == SubmitSessionQuestion(c, old(View()), id, user, text).next
      ensures error == Raised(SubmitSessionQuestion(c, old(View()), id, user, text))
    {
      hide Strip;
      if !(1 <= id <= |sessions|) {
        return Some(SessionNotFound);
      }
      var x := sessions[id - 1];
      if user != x.audience {
        return Some(SessionUnauthorized);
      }
      if !x.state.Active? {
        return Some(InvalidSessionState);
      }
      if x.question.Some? {
        return Some(DuplicateSessionQuestion);
      }
      var cleaned := Strip(text);
      if cleaned == "" || |cleaned| > c.questionMax {
        return Some(InvalidPayload);
      }
      sessions := sessions[id - 1 := x.(question := Some(cleaned))];
      CancelTimer(None);
      StartTimer(Timer(ReplyTimer, Some(id), None));
      return None;
    }

    method SubmitSessionAnswer(id: nat, user: UserId, text: string) returns (error: Option<Error>)
      modifies this`sessions, this`timer
      ensures View() == Protocol.SubmitSessionAnswer(old(View()), id, user, text).next
      ensures error == Raised(Protocol.SubmitSessionAnswer(old(View()), id, user, text))
    {
      hide Strip;
      if !(1 <= id <= |sessions|) {
        return Some(SessionNotFound);
      }
      var x := sessions[id - 1];
      if user != x.challenger {
        return Some(SessionUnauthorized);
      }
      if x.question.None? {
        return Some(InvalidSessionState);
      }
      if x.answer.Some? {
        return Some(DuplicateSessionAnswer);
      }
      if !x.state.Active? && !x.state.Answered? {
        return Some(InvalidSessionState);
      }
      var cleaned := Strip(text);
      if cleaned == "" {
        return Some(InvalidPayload);
      }
      sessions := sessions[id - 1 := x.(answer := Some(cleaned), state := SessionState.Voting)];
      CancelTimer(None);
      StartTimer(Timer(JudgeTimer, Some(id), None));
      return None;
    }

    /** The commit of a session vote: a No sends the audience member away, a Yes makes a finalist. */
    method CommitSessionVote(id: nat, choice: Choice)
      requires 1 <= id <= |sessions|
      modifies this`sessions, this`timer, this`members, this`users
      ensures View() == Judged(old(View()), id, choice)
    {
      hide Eliminate;
      CancelTimer(None);
      var x := sessions[id - 1];
      sessions := sessions[id - 1 := x.(vote := Some(choice), state := SessionState.Completed)];
      if choice.No? {
        Release(x.audience);
      } else {
        if x.audience in members {
          members := members[x.audience := members[x.audience].(status := Finalist)];
        }
        assert members == WithStatus(old(members), {x.audience}, Finalist);
      }
    }

    method SubmitSessionVote(id: nat, user: UserId, choice: Choice) returns (error: Option<Error>)
      modifies this
      ensures View() == Protocol.SubmitSessionVote(old(View()), id, user, choice).next
      ensures error == Raised(Protocol.SubmitSessionVote(old(View()), id, user, choice))
    {
      hide Protocol.ActivateNextSession, Judged;
      if !(1 <= id <= |sessions|) {
        return Some(SessionNotFound);
      }
      var x := sessions[id - 1];
      if user != x.audience {
        return Some(SessionUnauthorized);
      }
      if !x.state.Voting? {
        return Some(InvalidSessionState);
      }
      if x.vote.Some? {
        return Some(DuplicateSessionVote);
      }
      CommitSessionVote(id, choice);
      ActivateNextSession();
      return None;
    }

    method HandleQuestionTimeout(id: nat)
      modifies this
      ensures View() == QuestionTimeout(old(View()), id)
    {
      hide Protocol.ActivateNextSession, Eliminate;
      if !(1 <= id <= |sessions|) || !sessions[id - 1].state.Active? || sessions[id - 1].question.Some? {
        return;
      }
      var x := sessions[id - 1];
      sessions := sessions[id - 1 := x.(state := SessionState.Completed)];
      Release(x.audience);
      ActivateNextSession();
    }

    /** handle_answer_timeout looks at the answer only. */
    method HandleAnswerTimeout(id: nat)
      modifies this`sessions, this`timer
      ensures View() == AnswerTimeout(old(View()), id)
    {
      if !(1 <= id <= |sessions|) || sessions[id - 1].answer.Some? {
        return;
      }
      sessions := sessions[id - 1 := sessions[id - 1].(answer := Some(NO_RESPONSE))];
      sessions := sessions[id - 1 := sessions[id - 1].(state := SessionState.Voting)];
      StartTimer(Timer(JudgeTimer, Some(id), None));
    }

    method HandleVoteTimeout(id: nat)
      modifies this
      ensures View() == VoteTimeout(old(View()), id)
    {
      hide Protocol.SubmitSessionVote;
      if !(1 <= id <= |sessions|) || !sessions[id - 1].state.Voting? || sessions[id - 1].vote.Some? {
        return;
      }
      var _ := SubmitSessionVote(id, sessions[id - 1].audience, No);
    }

    // ----- Whole steps -----

    /** A player's request.  On a sound room an accepted one leaves it sound and with less to do. */
    method Handle(c: Config, a: Action) returns (error: Option<Error>)
      requires !a.Expire?
      modifies this
      ensures View() == Step(c, old(View()), a).next && error == Raised(Step(c, old(View()), a))
      ensures old(RoomInv(c, Rows(), timer)) ==>
        && RoomInv(c, Rows(), timer)
        && (error.None? ==> Running(c, Rows(), timer) && Remaining(c, Rows()) < old(Remaining(c, Rows())))
    {
      hide Protocol.SubmitAnswer, Protocol.SubmitVote, SubmitSessionQuestion, Protocol.SubmitSessionAnswer,
        Protocol.SubmitSessionVote, Protocol.CreateMatch, RoomInv, Running, Remaining;
      ghost var before := View();
      match a {
        case GiveAnswer(user, text) => error := SubmitAnswer(c, user, text);
        case GiveVote(user, choice) => error := SubmitVote(user, choice);
        case Ask(id, user, text) => error := SubmitQuestion(c, id, user, text);
        case Respond(id, user, text) => error := SubmitSessionAnswer(id, user, text);
        case Judge(id, user, choice) => error := SubmitSessionVote(id, user, choice);
        case Choose(user, candidate) => error := CreateMatch(user, candidate);
      }
      hide Step;
      if RoomInv(c, before.room, before.timer) {
        StepKeeps(c, before, a);
      }
    }

    /** The registered timer runs out: its record goes and the callback of its kind runs. */
    method ExpireTimer(c: Config) returns (pick: UserId)
      requires timer.Some?
      modifies this
      ensures Possible(old(View()), Expire(pick)) && View() == Expired(c, old(View()), pick)
      ensures old(RoomInv(c, Rows(), timer)) ==>
        Running(c, Rows(), timer) && Remaining(c, Rows()) < old(Remaining(c, Rows()))
    {
      ghost var before := View();
      pick := RunCallback(c);
      hide RoomInv, Running, Remaining, Expired, Possible;
      if RoomInv(c, before.room, before.timer) {
        ExpireKeeps(c, before, pick);
      }
    }

    method RunCallback(c: Config) returns (pick: UserId)
      requires timer.Some?
      modifies this
      ensures Possible(old(View()), Expire(pick)) && View() == Expired(c, old(View()), pick)
    {
      hide QuestioningTimeout, VotingTimeout, QuestionTimeout, AnswerTimeout, VoteTimeout, FinalSelectionTimeout, Finalists;
      var t := timer.value;
      var id := if t.session.Some? then t.session.value else 0;
      pick := 0;
      timer := None;
      match t.kind {
        case QuestioningTimer => HandleQuestioningTimeout(c);
        case VotingTimer => HandleVotingTimeout(t.round);
        case AskTimer => HandleQuestionTimeout(id);
        case ReplyTimer => HandleAnswerTimeout(id);
        case JudgeTimer => HandleVoteTimeout(id);
        case FinalTimer => pick := HandleFinalSelectionTimeout();
      }
    }
  }

  lemma FillersNext(asked: seq<QuestionId>, n: nat, answered: set<QuestionId>, user: UserId)
    requires n < |asked|
    ensures Fillers(asked[..n + 1], answered, user) == Fillers(asked[..n], answered, user)
      + (if asked[n] in answered then [] else [Answer(asked[n], user, NO_RESPONSE)])
  {
    assert asked[..n + 1][..n] == asked[..n];
  }

  /** Some rows kept ACTIVE, others released. */
  function Split(s: Slice, kept: set<UserId>, gone: set<UserId>): Slice {
    Eliminate(s.(room := s.room.(members := WithStatus(s.room.members, kept, Status.Active))), gone)
  }

  lemma NobodySplit(s: Slice)
    ensures Split(s, {}, {}) == s
  {
    assert WithStatus(s.room.members, {}, Status.Active) == s.room.members;
    EliminateNobody(s);
  }

  function Yeses(who: set<UserId>, choices: map<UserId, Choice>): set<UserId> {
    set u | u in who && u in choices && choices[u].Yes?
  }

  lemma NoYeses(choices: map<UserId, Choice>)
    ensures Yeses({}, choices) == {}
  {
  }

  lemma YesesAreKeepers(r: Room, choices: map<UserId, Choice>)
    requires forall u :: VoteOf(r.votes, r.round, u) == if u in choices then Some(choices[u]) else None
    ensures Yeses(ActiveAudience(r), choices) == Keepers(r)
  {
    hide ActiveAudience, VoteOf;
  }

  lemma OneMoreYes(audience: set<UserId>, left: set<UserId>, choices: map<UserId, Choice>, u: UserId)
    requires left <= audience && u in left
    ensures var kept := Yeses(audience - left, choices); var more := Yeses(audience - (left - {u}), choices);
      && more == (if u in choices && choices[u].Yes? then kept + {u} else kept)
      && audience - (left - {u}) - more ==
         (if u in choices && choices[u].Yes? then audience - left - kept else audience - left - kept + {u})
  {
  }

  /** One row kept ACTIVE, or released. */
  function Decided(s: Slice, u: UserId, stays: bool): Slice {
    if stays then s.(room := s.room.(members := WithStatus(s.room.members, {u}, Status.Active))) else Eliminate(s, {u})
  }

  lemma OneDecided(s: Slice, kept: set<UserId>, gone: set<UserId>, u: UserId, stays: bool)
    requires u !in gone
    ensures Decided(Split(s, kept, gone), u, stays) ==
      if stays then Split(s, kept + {u}, gone) else Split(s, kept, gone + {u})
  {
    if !stays {
      OneMoreReleased(s.(room := s.room.(members := WithStatus(s.room.members, kept, Status.Active))), gone, u);
    } else {
      OneKept(s, kept, gone, u);
    }
  }

  lemma OneKept(s: Slice, kept: set<UserId>, gone: set<UserId>, u: UserId)
    requires u !in gone
    ensures Decided(Split(s, kept, gone), u, true) == Split(s, kept + {u}, gone)
  {
    var t := Split(s, kept, gone);
    assert WithStatus(t.room.members, {u}, Status.Active) == Split(s, kept + {u}, gone).room.members;
  }

  lemma TallyIsSplit(s: Slice)
    ensures var keep := Keepers(s.room); var gone := ActiveAudience(s.room) - keep; var host := s.room.challenger;
      Tally(s) == Split(s, keep,
        if keep == {} && host in s.room.members && s.room.members[host].leftAt.None? then gone + {host} else gone)
  {
  }

  lemma OnlyOne<T>(s: set<T>, x: T)
    requires |s| == 1 && x in s
    ensures s == {x}
  {
    assert |s - {x}| == 0;
  }
}
