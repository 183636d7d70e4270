/** The bound on a room's steps is exact: a loyal panel of two or more uses it up, a panel of one cannot. */
module LongestRuns {
  import opened Domain
  import opened Ordering
  import opened RoomStates
  import opened Protocol
  import opened RoomInvariant
  import opened QuestioningVoting
  import opened SessionSteps
  import opened RoomRuns
  import opened Effects
  import Audit
  import Text

  /** A room can accept n more steps in a row. */
  ghost predicate CanTake(c: Config, s: Slice, n: nat)
    decreases n
  {
    n == 0 || exists a :: Step(c, s, a).Ok? && CanTake(c, Step(c, s, a).next, n - 1)
  }

  // ----- Loyal panels -----

  /** Nobody has said No yet, in public or in private, and nobody is missing from the sessions. */
  ghost predicate Loyal(r: Room) {
    && (forall v | v in r.votes :: v.choice.Yes?)
    && (forall x | x in r.sessions && x.state.Completed? :: x.vote == Some(Yes))
    && (r.state.OneOnOne? ==> YesVoters(r) == Panel(r))
    && |Panel(r)| >= 2
  }

  /** One more step of a loyal room that uses up no more than one of those that remain. */
  ghost predicate Frugal(c: Config, s: Slice, a: Action) {
    var reply := Step(c, s, a);
    reply.Ok? && Remaining(c, reply.next.room) == Remaining(c, s.room) - 1 && (reply.next.room.state.Completed? || Loyal(reply.next.room))
  }

  lemma FrugalAnswer(c: Config, s: Slice)
    requires RoomInv(c, s.room, s.timer) && s.room.state.Questioning? && Loyal(s.room)
    ensures Frugal(c, s, GiveAnswer(s.room.challenger, ""))
  {
    var r := s.room;
    AnswersSoFar(c, r);
    var q := r.(answers := r.answers + [Domain.Answer(r.questions[r.round - 1], r.challenger, "")]);
    assert AnsweredUpTo(q, r.round);
    assert Panel(q) == Panel(r);
    if r.round < c.rounds {
      assert Panel(SubmitAnswer(c, s, r.challenger, "").next.room) == Panel(r);
    } else {
      EntersVoting(c, s.(room := q));
      assert Panel(Transition(s.(room := q), RoomState.Voting).next.room) == Panel(r);
    }
  }

  lemma EveryoneSaidYes(r: Room)
    requires Ballots(r) && Silent(r) == {} && ActiveAudience(r) == Panel(r)
    requires forall v | v in r.votes :: v.choice.Yes?
    ensures YesVoters(r) == Panel(r)
  {
    forall u | u in Panel(r) ensures VoteOf(r.votes, r.round, u) == Some(Yes) {
      VoteFound(r.votes, r.round, u);
      assert u !in Silent(r);
      var i :| 0 <= i < |r.votes| && r.votes[i] == Domain.Vote(r.round, u, VoteOf(r.votes, r.round, u).value);
      assert r.votes[i] in r.votes;
    }
  }

  lemma SilentVoter(c: Config, s: Slice) returns (u: UserId)
    requires RoomInv(c, s.room, s.timer) && s.room.state.Voting?
    ensures VoteError(s.room, u).None? && Countable(c, s.room) && |s.room.votes| < |Panel(s.room)|
    ensures s.timer == Some(Timer(VotingTimer, None, Some(s.room.round)))
  {
    hide VoteOf, IsWalk;
    assert ActiveAudience(s.room) == Panel(s.room);
    VotePigeonhole(c, s.room);
    u :| u in Silent(s.room);
  }

  lemma VoteCounts(c: Config, s: Slice, u: UserId)
    requires Countable(c, s.room) && Loyal(s.room) && VoteError(s.room, u).None?
    requires |s.room.votes| < |Panel(s.room)| && s.timer == Some(Timer(VotingTimer, None, Some(s.room.round)))
    ensures Frugal(c, s, GiveVote(u, Yes))
  {
    hide VoteOf, IsWalk, FinalizeVoting, VoteError;
    var s1 := CastVote(s, u, Yes);
    BallotAdded(c, s, u, Yes);
    VotePigeonhole(c, s1.room);
    assert ActiveAudience(s1.room) == Panel(s1.room) == Panel(s.room);
    hide ActiveAudience;
    if |s1.room.votes| >= |Panel(s.room)| {
      EveryoneSaidYes(s1.room);
      LastVote(c, s1);
    }
    hide Countable, Silent, VotesIn;
  }

  lemma FrugalVote(c: Config, s: Slice) returns (u: UserId)
    requires RoomInv(c, s.room, s.timer) && s.room.state.Voting? && Loyal(s.room)
    ensures Frugal(c, s, GiveVote(u, Yes))
  {
    hide FinalizeVoting, RoomInv, Silent, Loyal, Remaining;
    u := SilentVoter(c, s);
    VoteCounts(c, s, u);
  }

  lemma LastVote(c: Config, s: Slice)
    requires Countable(c, s.room) && (s.timer.None? || s.timer.value.kind.VotingTimer?)
    requires YesVoters(s.room) == Panel(s.room) && |Panel(s.room)| >= 2 && forall v | v in s.room.votes :: v.choice.Yes?
    ensures var q := FinalizeVoting(s).room; Remaining(c, q) == 3 * |Panel(s.room)| + 1 && Loyal(q)
  {
    hide Tally, FinalizeVoting, Countable, IsWalk, VoteOf, Roster, Remaining, Loyal;
    var s0 := s.(timer := None);
    var t := Tally(Moved(s0, RoomState.Elimination));
    TallyKeeps(c, s0);
    FinalizeUnfolds(c, s);
    EntersSessions(c, t);
    LoyalSessions(c, t);
  }

  lemma LoyalSessions(c: Config, t: Slice)
    requires t.room.sessions == [] && t.room.state.Elimination?
    requires YesVoters(t.room) == Panel(t.room) && |Panel(t.room)| >= 2 && forall v | v in t.room.votes :: v.choice.Yes?
    ensures Loyal(Moved(t, RoomState.OneOnOne).room)
  {
    hide Listing, VoteOf;
    var d := Committed(t.room, RoomState.OneOnOne);
    var q := Moved(t, RoomState.OneOnOne).room;
    assert Panel(q) == Panel(t.room) && YesVoters(q) == YesVoters(t.room);
    assert q == d.(sessions := NewSessions(Listing(JoinTimes(d), ActiveAudience(d)), d.challenger));
    hide ActiveAudience, JoinTimes;
  }

  /** The current session's next move: a question, an answer, or a Yes. */
  function NextMove(x: Session): Action {
    if x.state.Voting? then Judge(x.sequence, x.audience, Yes)
    else if x.question.Some? then Respond(x.sequence, x.challenger, "a")
    else Ask(x.sequence, x.audience, "q")
  }

  lemma ShortTexts()
    ensures Text.Strip("q") == "q" && Text.Strip("a") == "a"
  {
    assert Text.Start("q", 0) == 0 && Text.End("q", 1) == 1;
    assert Text.Start("a", 0) == 0 && Text.End("a", 1) == 1;
  }

  /** What the invariant says of the session whose turn it is. */
  lemma CurrentSession(c: Config, r: Room, timer: Option<Timer>)
    requires RoomInv(c, r, timer) && r.state.OneOnOne?
    ensures var k := Current(r.sessions);
      && k < |r.sessions| && r.sessions[k].sequence == k + 1 && r.sessions[k].audience in r.members
      && SessionFits(r.sessions[k], r.members[r.sessions[k].audience])
      && (r.sessions[k].state.Active? || r.sessions[k].state.Voting?)
  {
    hide Roster, IsWalk, Listing, Benched, Ballots, AnsweredUpTo;
  }

  lemma FrugalTurn(c: Config, s: Slice)
    requires RoomInv(c, s.room, s.timer) && s.room.state.OneOnOne? && Loyal(s.room) && c.questionMax >= 1
    ensures Current(s.room.sessions) < |s.room.sessions| && Frugal(c, s, NextMove(s.room.sessions[Current(s.room.sessions)]))
  {
    hide RoomInv, Remaining, ActivateNextSession, Judged, Text.Strip, Loyal, SessionFits;
    CurrentSession(c, s.room, s.timer);
    var x := s.room.sessions[Current(s.room.sessions)];
    CurrentColumns(c, s, x);
    if x.state.Voting? {
      FrugalJudgement(c, s);
    } else {
      FrugalExchange(c, s);
    }
  }

  lemma CurrentColumns(c: Config, s: Slice, x: Session)
    requires x.audience in s.room.members && SessionFits(x, s.room.members[x.audience])
    ensures x.state.Active? ==> x.answer.None?
    ensures x.state.Voting? ==> x.vote.None?
  {
  }

  /** A question or an answer. */
  lemma FrugalExchange(c: Config, s: Slice)
    requires RoomInv(c, s.room, s.timer) && s.room.state.OneOnOne? && Loyal(s.room) && c.questionMax >= 1
    requires Current(s.room.sessions) < |s.room.sessions| && s.room.sessions[Current(s.room.sessions)].state.Active?
    ensures Frugal(c, s, NextMove(s.room.sessions[Current(s.room.sessions)]))
  {
    hide RoomInv, Remaining, Text.Strip, Loyal;
    var k := Current(s.room.sessions);
    CurrentSession(c, s.room, s.timer);
    ShortTexts();
    var x := s.room.sessions[k];
    var y := if x.question.Some? then x.(answer := Some("a"), state := SessionState.Voting) else x.(question := Some("q"));
    RewriteKeeps(c, s, k, y);
    LoyalRewritten(s.room, k, y);
  }

  lemma LoyalRewritten(r: Room, k: nat, y: Session)
    requires Loyal(r) && k < |r.sessions| && !y.state.Completed?
    ensures Loyal(r.(sessions := r.sessions[k := y]))
  {
    var q := r.(sessions := r.sessions[k := y]);
    assert Panel(q) == Panel(r) && YesVoters(q) == YesVoters(r);
    forall x | x in q.sessions && x.state.Completed? ensures x.vote == Some(Yes) {
      var j :| 0 <= j < |q.sessions| && q.sessions[j] == x;
      assert r.sessions[j] in r.sessions;
    }
  }

  lemma FrugalJudgement(c: Config, s: Slice)
    requires RoomInv(c, s.room, s.timer) && s.room.state.OneOnOne? && Loyal(s.room)
    requires Current(s.room.sessions) < |s.room.sessions| && s.room.sessions[Current(s.room.sessions)].state.Voting?
    ensures Frugal(c, s, NextMove(s.room.sessions[Current(s.room.sessions)]))
  {
    hide RoomInv, Remaining, ActivateNextSession, Judged, AfterSession, Loyal;
    var k := Current(s.room.sessions);
    CurrentSession(c, s.room, s.timer);
    JudgedKeeps(c, s, k + 1, Yes);
    var t := Judged(s, k + 1, Yes);
    JudgedLoyal(c, s, k);
    if Current(t.room.sessions) < |t.room.sessions| {
      NextKeeps(c, t);
      NextIsLoyal(c, t);
    } else {
      LastIsLoyal(c, t);
    }
  }

  lemma JudgedLoyal(c: Config, s: Slice, k: nat)
    requires Loyal(s.room) && s.room.state.OneOnOne? && k < |s.room.sessions| && s.room.sessions[k].audience in s.room.members
    ensures Loyal(Judged(s, k + 1, Yes).room)
  {
    JudgedIs(s, k + 1, Yes);
    var q := Judged(s, k + 1, Yes).room;
    hide Judged;
    assert Panel(q) == Panel(s.room) && YesVoters(q) == YesVoters(s.room);
    forall x | x in q.sessions && x.state.Completed? ensures x.vote == Some(Yes) {
      var j :| 0 <= j < |q.sessions| && q.sessions[j] == x;
      if j != k {
        assert s.room.sessions[j] in s.room.sessions;
      }
    }
  }

  lemma NextIsLoyal(c: Config, t: Slice)
    requires AfterSession(c, t) && Current(t.room.sessions) < |t.room.sessions| && Loyal(t.room)
    ensures Loyal(ActivateNextSession(t).room)
  {
    NextActivated(c, t);
    hide AfterSession, ActivateNextSession, Loyal;
    var k := Current(t.room.sessions);
    LoyalRewritten(t.room, k, t.room.sessions[k].(state := SessionState.Active));
  }

  /** The whole panel has said Yes twice: the challenger has at least two finalists to choose from. */
  lemma LastIsLoyal(c: Config, t: Slice)
    requires AfterSession(c, t) && Current(t.room.sessions) == |t.room.sessions| && Loyal(t.room)
    ensures var q := ActivateNextSession(t).room; Remaining(c, q) == 1 && Loyal(q) && Work(t.room.sessions) == 0
  {
    ActivateCloses(c, t);
    AllAreFinalists(c, t.room);
    hide ActivateNextSession, Remaining, CloseSessions, Loyal, Finalists;
    LoyalPanel(t.room);
    CloseWithMany(c, t.(timer := None));
    FinalLoyal(t.(timer := None));
  }

  lemma LoyalPanel(r: Room)
    requires Loyal(r)
    ensures |Panel(r)| >= 2
  {
  }

  lemma FinalLoyal(t: Slice)
    requires Loyal(t.room) && t.room.state.OneOnOne? && |Finalists(t.room)| > 1
    ensures Loyal(CloseSessions(t).room)
  {
    var q := CloseSessions(t).room;
    hide Finalists;
    assert Panel(q) == Panel(t.room);
  }

  lemma AllAreFinalists(c: Config, r: Room)
    requires Roster(c, r) && SessionRows(c, r) && AllOver(r.sessions) && Loyal(r) && r.state.OneOnOne?
    ensures Finalists(r) == Panel(r)
  {
    hide Roster, SessionRoll, SessionFits, Finalists, Ballots, AnsweredUpTo, Benched;
    SessionsDecide(c, r);
    RollIsBijection(r);
    assert YesVoters(r) == Panel(r);
    hide SessionRows, YesVoters;
    forall u | u in Panel(r) ensures u in SaidYes(r.sessions) {
      var x :| x in r.sessions && x.audience == u;
    }
  }

  lemma FrugalChoice(c: Config, s: Slice) returns (u: UserId)
    requires RoomInv(c, s.room, s.timer) && s.room.state.FinalSelection?
    ensures Frugal(c, s, Choose(s.room.challenger, u))
  {
    hide RoomInv, Remaining, Finalists, CreateMatch, Roster, IsWalk, SessionRows, AllOver, Loyal, Running;
    FinalParts(c, s.room, s.timer);
    u :| u in Finalists(s.room);
    ChoiceAccepted(c, s, u);
    CreateMatchKeeps(c, s, s.room.challenger, u);
    var q := CreateMatch(s, s.room.challenger, u).next;
    RemainingIsNatural(c, q.room, q.timer);
  }

  lemma ChoiceAccepted(c: Config, s: Slice, u: UserId)
    requires Roster(c, s.room) && s.room.state.FinalSelection? && u in Finalists(s.room) && s.room.pairing.None?
    ensures var reply := CreateMatch(s, s.room.challenger, u); reply.Ok? && reply.next.room.state.Completed?
  {
    ChallengerIsNoFinalist(c, s.room);
    hide Finalists, Settled, Roster;
    SettledMatch(Eliminate(Paired(s.(timer := AfterCancel(s.timer, Some(FinalTimer))), u), Finalists(s.room) - {u}));
  }

  // ----- The longest run -----

  lemma FrugalStep(c: Config, s: Slice) returns (a: Action)
    requires RoomInv(c, s.room, s.timer) && Loyal(s.room) && c.questionMax >= 1 && Remaining(c, s.room) > 0
    ensures Frugal(c, s, a)
  {
    hide Loyal, Frugal;
    RemainingStates(c, s.room, s.timer);
    hide RoomInv, Remaining;
    if s.room.state.Questioning? {
      FrugalAnswer(c, s);
      a := GiveAnswer(s.room.challenger, "");
    } else if s.room.state.Voting? {
      var u := FrugalVote(c, s);
      a := GiveVote(u, Yes);
    } else if s.room.state.OneOnOne? {
      FrugalTurn(c, s);
      a := NextMove(s.room.sessions[Current(s.room.sessions)]);
    } else {
      var u := FrugalChoice(c, s);
      a := Choose(s.room.challenger, u);
    }
  }

  lemma RemainingStates(c: Config, r: Room, timer: Option<Timer>)
    requires RoomInv(c, r, timer) && Remaining(c, r) > 0
    ensures r.state.Questioning? || r.state.Voting? || r.state.OneOnOne? || r.state.FinalSelection?
  {
  }

  /** A loyal room can use up every step that remains. */
  lemma {:induction false} LoyalRoomsTakeAll(c: Config, s: Slice, n: nat)
    requires RoomInv(c, s.room, s.timer) && c.questionMax >= 1 && n == Remaining(c, s.room) && (n == 0 || Loyal(s.room))
    ensures CanTake(c, s, n)
    decreases n
  {
    hide RoomInv, Loyal, Step, Remaining, Running;
    if n > 0 {
      var a := FrugalStep(c, s);
      StepKeeps(c, s, a);
      var q := Step(c, s, a).next;
      RemainingIsNatural(c, q.room, q.timer);
      LoyalRoomsTakeAll(c, q, n - 1);
    }
  }

  // ----- Rooms that cannot use all their steps -----

  ghost predicate NoQuestions(r: Room) {
    forall x | x in r.sessions :: x.question.None?
  }

  /**
   With a single audience member the choice between finalists never comes; neither does it where no
   question is short enough to be asked.
   */
  ghost predicate Starved(c: Config, r: Room) {
    |Panel(r)| == 1 || (c.questionMax == 0 && NoQuestions(r))
  }

  predicate Underway(r: Room) {
    r.state.Questioning? || r.state.Voting? || r.state.OneOnOne?
  }

  ghost function Most(c: Config, r: Room): int {
    if Starved(c, r) && Underway(r) then Remaining(c, r) - 1 else Remaining(c, r)
  }

  lemma CloseKeepsSessions(s: Slice)
    ensures CloseSessions(s).room.sessions == s.room.sessions
  {
    hide Finalists;
  }

  lemma ActivateAsksNothing(s: Slice)
    requires NoQuestions(s.room)
    ensures NoQuestions(ActivateNextSession(s).room)
  {
    hide CloseSessions, FirstLive;
    var f := FirstLive(s.room.sessions, s.room.members, 0);
    var xs := Activated(s.room.sessions, f);
    CloseKeepsSessions(s.(room := s.room.(sessions := xs), timer := AfterCancel(s.timer, None)));
    forall x | x in xs ensures x.question.None? {
      var j :| 0 <= j < |xs| && xs[j] == x;
      assert s.room.sessions[j] in s.room.sessions;
    }
  }

  lemma FinalizeAsksNothing(s: Slice)
    requires NoQuestions(s.room)
    ensures NoQuestions(FinalizeVoting(s).room)
  {
    hide Keepers, Listing, ActiveAudience;
  }

  lemma NoSessionAsked(c: Config, s: Slice, id: nat)
    requires RoomInv(c, s.room, s.timer) && NoQuestions(s.room) && HasSession(s.room, id)
    ensures !s.room.sessions[id - 1].state.Voting? && s.room.sessions[id - 1].question.None?
  {
    hide RoomInv;
    var x := s.room.sessions[id - 1];
    assert x in s.room.sessions;
    if x.state.Voting? {
      OnlyCurrentInProgress(c, s, id);
    }
  }

  lemma UnaskedAsksNothing(s: Slice, id: nat)
    requires NoQuestions(s.room) && HasSession(s.room, id)
    ensures NoQuestions(QuestionTimeout(s, id).room)
  {
    hide ActivateNextSession;
    if s.room.sessions[id - 1].state.Active? && s.room.sessions[id - 1].question.None? {
      UnaskedTimeout(s, id);
      var t := Unasked(s, id);
      forall x | x in t.room.sessions ensures x.question.None? {
        var j :| 0 <= j < |t.room.sessions| && t.room.sessions[j] == x;
        assert s.room.sessions[j] in s.room.sessions;
      }
      ActivateAsksNothing(t);
    }
  }

  lemma ExpiryAsksNothing(c: Config, s: Slice, pick: UserId)
    requires RoomInv(c, s.room, s.timer) && NoQuestions(s.room) && s.timer.Some?
    ensures NoQuestions(Expired(c, s, pick).room)
  {
    hide RoomInv, FinalizeVoting, QuestionTimeout, Settled, Finalists, SubmitSessionVote, Fillers, AskedQuestions, AnsweredBy;
    var s0 := s.(timer := None);
    match s.timer.value.kind
    case QuestioningTimer =>
    case VotingTimer => FinalizeAsksNothing(s0);
    case AskTimer =>
      SessionTimerTells(c, s);
      UnaskedAsksNothing(s0, s.timer.value.session.value);
    case ReplyTimer =>
      SessionTimerTells(c, s);
      NoSessionAsked(c, s, s.timer.value.session.value);
    case JudgeTimer =>
      SessionTimerTells(c, s);
      NoSessionAsked(c, s, s.timer.value.session.value);
    case FinalTimer => ChoiceAsksNothing(s0, s.room.challenger, pick);
  }

  lemma ChoiceAsksNothing(s: Slice, user: UserId, candidate: UserId)
    requires NoQuestions(s.room)
    ensures NoQuestions(CreateMatch(s, user, candidate).next.room)
  {
    hide Finalists;
  }

  /** Where no question is short enough, none is ever there. */
  lemma NobodyAsks(c: Config, s: Slice, a: Action)
    requires RoomInv(c, s.room, s.timer) && NoQuestions(s.room) && c.questionMax == 0
    ensures NoQuestions(Step(c, s, a).next.room)
  {
    hide RoomInv, FinalizeVoting, ActivateNextSession, CreateMatch, Expired, HasAnswer, VoteError, Text.Strip, Possible;
    match a
    case GiveAnswer(user, text) =>
    case GiveVote(user, choice) => FinalizeAsksNothing(CastVote(s, user, choice));
    case Ask(id, user, text) =>
    case Respond(id, user, text) =>
      if HasSession(s.room, id) {
        NoSessionAsked(c, s, id);
      }
    case Judge(id, user, choice) =>
      if HasSession(s.room, id) {
        NoSessionAsked(c, s, id);
      }
    case Choose(user, candidate) => ChoiceAsksNothing(s, user, candidate);
    case Expire(pick) =>
      if Possible(s, a) {
        Audit.PossibleNeedsTimer(s, a);
        ExpiryAsksNothing(c, s, pick);
      }
  }

  lemma {:induction false} WorkIsLeft(xs: seq<Session>, k: nat)
    requires k < |xs| && !xs[k].state.Completed?
    ensures Work(xs) >= 1
  {
    var n := |xs| - 1;
    if k < n {
      WorkIsLeft(xs[..n], k);
    }
  }

  lemma AtLeastTwoLeft(c: Config, r: Room, timer: Option<Timer>)
    requires RoomInv(c, r, timer) && (r.state.Questioning? || r.state.Voting? || r.state.OneOnOne?)
    ensures Remaining(c, r) >= 2
  {
    if r.state.OneOnOne? {
      InSessions(c, r, timer);
      hide RoomInv, Remaining, SessionRows, IsWalk, Roster;
      WorkIsLeft(r.sessions, Current(r.sessions));
    } else {
      hide IsWalk, AnsweredUpTo, Ballots;
      assert Roster(c, r);
      hide Roster;
    }
  }

  lemma NoChoiceForOne(c: Config, r: Room, timer: Option<Timer>)
    requires RoomInv(c, r, timer) && r.state.FinalSelection?
    ensures |Panel(r)| >= 2
  {
    FinalParts(c, r, timer);
    hide RoomInv;
    SubsetCount(Finalists(r), Panel(r));
  }

  /** Without questions nobody votes in private, and nobody becomes a finalist. */
  lemma NoChoiceUnasked(c: Config, r: Room, timer: Option<Timer>)
    requires RoomInv(c, r, timer) && r.state.FinalSelection?
    ensures !NoQuestions(r)
  {
    hide RoomInv, SessionRows, Roster, AllOver, Finalists, Remaining;
    FinalParts(c, r, timer);
    SessionsDecide(c, r);
    EachSessionFits(c, r);
    var u :| u in SaidYes(r.sessions);
    var x :| x in r.sessions && x.vote == Some(Yes) && x.audience == u;
    FittingColumns(x, r.members[x.audience]);
  }

  /** A starved room has two steps left at least while it is under way, and none otherwise. */
  lemma StarvedRooms(c: Config, r: Room, timer: Option<Timer>)
    requires RoomInv(c, r, timer) && Starved(c, r)
    ensures if Underway(r) then Remaining(c, r) >= 2 else Remaining(c, r) == 0
  {
    if Underway(r) {
      AtLeastTwoLeft(c, r, timer);
    } else if r.state.FinalSelection? {
      NoChoiceForOne(c, r, timer);
      NoChoiceUnasked(c, r, timer);
    }
    hide RoomInv, Panel, NoQuestions;
  }

  lemma StepMost(c: Config, s: Slice, a: Action)
    requires RoomInv(c, s.room, s.timer) && Step(c, s, a).Ok?
    ensures var q := Step(c, s, a).next; Panel(q.room) == Panel(s.room) && 0 <= Most(c, q.room) < Most(c, s.room)
  {
    hide RoomInv, Step, Effect, Running, Remaining, Panel, NoQuestions;
    var q := Step(c, s, a).next;
    StepKeeps(c, s, a);
    StepEffect(c, s, a);
    PanelStays(s, q);
    RemainingIsNatural(c, q.room, q.timer);
    if Starved(c, s.room) {
      if c.questionMax == 0 && NoQuestions(s.room) {
        NobodyAsks(c, s, a);
      }
      StarvedRooms(c, s.room, s.timer);
    }
    if Starved(c, q.room) {
      StarvedRooms(c, q.room, q.timer);
    }
  }

  lemma {:induction false} TakenAtMost(c: Config, s: Slice, n: nat)
    requires RoomInv(c, s.room, s.timer) && CanTake(c, s, n)
    ensures n == 0 || n <= Most(c, s.room)
    decreases n
  {
    hide RoomInv, Step, Most, Panel, Running, Remaining;
    if n > 0 {
      var a :| Step(c, s, a).Ok? && CanTake(c, Step(c, s, a).next, n - 1);
      StepMost(c, s, a);
      StepKeeps(c, s, a);
      TakenAtMost(c, Step(c, s, a).next, n - 1);
    }
  }

  /**
   The bound is exact: a room that has just entered QUESTIONING with A audience members can accept
   N + 4A + 1 steps, and never more, exactly when A is at least two and there is a question short
   enough to be asked.
   */
  lemma BoundIsExact(c: Config, s: Slice)
    requires RoomInv(c, s.room, s.timer) && s.room.state.Questioning? && s.room.round == 1
    ensures forall n: nat | CanTake(c, s, n) :: n <= c.rounds + 4 * |Panel(s.room)| + 1
    ensures CanTake(c, s, c.rounds + 4 * |Panel(s.room)| + 1) <==> |Panel(s.room)| >= 2 && c.questionMax >= 1
  {
    hide RoomInv, Remaining, Panel, Loyal, CanTake, Starved;
    var most := c.rounds + 4 * |Panel(s.room)| + 1;
    EntryFacts(c, s);
    hide Most;
    forall n: nat | CanTake(c, s, n) ensures n <= if |Panel(s.room)| >= 2 && c.questionMax >= 1 then most else most - 1 {
      TakenAtMost(c, s, n);
    }
    if |Panel(s.room)| >= 2 && c.questionMax >= 1 {
      LoyalRoomsTakeAll(c, s, most);
    }
  }

  lemma EntryFacts(c: Config, s: Slice)
    requires RoomInv(c, s.room, s.timer) && s.room.state.Questioning? && s.room.round == 1
    ensures Remaining(c, s.room) == c.rounds + 4 * |Panel(s.room)| + 1
    ensures |Panel(s.room)| >= 1 && (|Panel(s.room)| >= 2 ==> Loyal(s.room))
    ensures Most(c, s.room) == c.rounds + 4 * |Panel(s.room)| + if |Panel(s.room)| >= 2 && c.questionMax >= 1 then 1 else 0
  {
    assert Roster(c, s.room);
    hide IsWalk;
  }
}
