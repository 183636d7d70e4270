/** The steps of the one-on-one phase and of final selection keep the room invariant. */
module SessionSteps {
  import opened Domain
  import opened Ordering
  import opened RoomStates
  import opened Protocol
  import opened RoomInvariant
  import opened QuestioningVoting
  import Text

  lemma {:induction false} CurrentIs(xs: seq<Session>, k: nat, i: nat := 0)
    requires i <= k <= |xs| && forall j | i <= j < k :: xs[j].state.Completed?
    requires k < |xs| ==> !xs[k].state.Completed?
    ensures Current(xs, i) == k
    decreases k - i
  {
    if i < k {
      CurrentIs(xs, k, i + 1);
    }
  }

  /** The panel, its public vote and the order of its sessions only depend on columns that never change. */
  lemma SameBallot(r: Room, q: Room)
    requires SameRoster(r, q) && q.votes == r.votes && q.round == r.round
    ensures Panel(q) == Panel(r) && YesVoters(q) == YesVoters(r) && JoinTimes(q) == JoinTimes(r)
  {
    assert Panel(q) == Panel(r);
    assert YesVoters(q) == YesVoters(r);
    assert JoinTimes(q) == JoinTimes(r);
  }

  predicate SameKey(x: Session, y: Session) {
    x.audience == y.audience && x.sequence == y.sequence && x.challenger == y.challenger
  }

  /** Nor does the roll, as long as every session keeps its key. */
  lemma RollStays(r: Room, q: Room)
    requires SessionRoll(r) && Ballots(r) && SameRoster(r, q) && q.votes == r.votes && q.round == r.round
    requires |q.sessions| == |r.sessions| && forall i | 0 <= i < |r.sessions| :: SameKey(q.sessions[i], r.sessions[i])
    ensures SessionRoll(q) && Ballots(q)
    ensures Panel(q) == Panel(r) && YesVoters(q) == YesVoters(r)
  {
    hide Panel, YesVoters, JoinTimes, VoteOf, Listing;
    SameBallot(r, q);
  }

  /** One session gets new contents that still fit its audience member's row. */
  lemma RowRewritten(c: Config, r: Room, k: nat, x: Session)
    requires Roster(c, r) && SessionRows(c, r) && k < |r.sessions|
    requires SameKey(x, r.sessions[k]) && SessionFits(x, r.members[x.audience])
    ensures var q := r.(sessions := r.sessions[k := x]);
      Roster(c, q) && Panel(q) == Panel(r) && SessionRows(c, q)
  {
    hide SessionRoll, Ballots, YesVoters, Panel, SessionFits, Distinct;
    var q := r.(sessions := r.sessions[k := x]);
    RollStays(r, q);
  }

  /** Rewriting the current session's contents without ending it. */
  lemma SequenceRewritten(xs: seq<Session>, k: nat, x: Session)
    requires k < |xs| && (x.state.Active? || x.state.Voting?)
    requires (forall j | 0 <= j < k :: xs[j].state.Completed?) && (forall j | k < j < |xs| :: xs[j].state.Pending?)
    ensures var ys := xs[k := x];
      && Current(ys) == k && InSequence(ys, k)
      && Work(ys) == Work(xs) - SessionWork(xs[k]) + SessionWork(x)
  {
    CurrentIs(xs[k := x], k);
    WorkChanges(xs, k, x);
  }

  /** The invariant of a room in the middle of its sessions, put together from its parts. */
  lemma MidSessions(c: Config, r: Room, timer: Option<Timer>)
    requires Roster(c, r) && IsWalk(r.history, RoomState.Ready, RoomState.OneOnOne) && r.state.OneOnOne?
    requires SessionRows(c, r) && InSequence(r.sessions, Current(r.sessions))
    requires Current(r.sessions) < |r.sessions| && timer == Some(SessionTimer(r.sessions[Current(r.sessions)]))
    ensures Running(c, r, timer) && Remaining(c, r) == Work(r.sessions) + 1
  {
    hide Roster, IsWalk, SessionRows, InSequence, Current, Work;
  }

  /** And taken apart again. */
  lemma InSessions(c: Config, r: Room, timer: Option<Timer>)
    requires RoomInv(c, r, timer) && r.state.OneOnOne?
    ensures Roster(c, r) && IsWalk(r.history, RoomState.Ready, RoomState.OneOnOne)
    ensures SessionRows(c, r) && InSequence(r.sessions, Current(r.sessions))
    ensures Current(r.sessions) < |r.sessions| && timer == Some(SessionTimer(r.sessions[Current(r.sessions)]))
    ensures Remaining(c, r) == Work(r.sessions) + 1
  {
    hide Roster, IsWalk, SessionRows, InSequence, Current, Work;
  }

  lemma RewriteKeeps(c: Config, s: Slice, k: nat, x: Session)
    requires RoomInv(c, s.room, s.timer) && s.room.state.OneOnOne? && k == Current(s.room.sessions)
    requires k < |s.room.sessions| && SameKey(x, s.room.sessions[k]) && x.audience in s.room.members
    requires x.state.Active? || x.state.Voting?
    requires SessionFits(x, s.room.members[x.audience])
    requires SessionWork(x) < SessionWork(s.room.sessions[k])
    ensures var q := WithSession(s, k + 1, x).(timer := Some(SessionTimer(x)));
      && Running(c, q.room, q.timer)
      && Remaining(c, q.room) == Remaining(c, s.room) - SessionWork(s.room.sessions[k]) + SessionWork(x)
  {
    InSessions(c, s.room, s.timer);
    hide RoomInv, Remaining;
    RowRewritten(c, s.room, k, x);
    assert forall j | k < j < |s.room.sessions| :: s.room.sessions[j].state.Pending?;
    SequenceRewritten(s.room.sessions, k, x);
    hide SessionRows, Roster, IsWalk;
    MidSessions(c, s.room.(sessions := s.room.sessions[k := x]), Some(SessionTimer(x)));
  }

  /** Outside the phase no session is in progress, and in it only the current one is. */
  lemma OnlyCurrentInProgress(c: Config, s: Slice, id: nat)
    requires RoomInv(c, s.room, s.timer) && HasSession(s.room, id) && InProgress(s.room.sessions[id - 1].state)
    ensures var x := s.room.sessions[id - 1];
      && s.room.state.OneOnOne? && id - 1 == Current(s.room.sessions)
      && x.sequence == id && s.timer == Some(SessionTimer(x))
      && x.audience in s.room.members && SessionFits(x, s.room.members[x.audience])
  {
    hide Roster, IsWalk, Listing;
    assert s.room.sessions[id - 1] in s.room.sessions;
  }

  lemma SubmitSessionQuestionKeeps(c: Config, s: Slice, id: nat, user: UserId, text: string)
    requires RoomInv(c, s.room, s.timer)
    ensures var reply := SubmitSessionQuestion(c, s, id, user, text);
      KeepsRoom(c, s, reply) && (reply.Refused? ==> reply.next == s)
  {
    hide RoomInv, Remaining, Text.Strip;
    var reply := SubmitSessionQuestion(c, s, id, user, text);
    if reply.Ok? {
      OnlyCurrentInProgress(c, s, id);
      var x := reply.next.room.sessions[id - 1];
      RewriteKeeps(c, s, id - 1, x);
    }
  }

  lemma SubmitSessionAnswerKeeps(c: Config, s: Slice, id: nat, user: UserId, text: string)
    requires RoomInv(c, s.room, s.timer)
    ensures var reply := SubmitSessionAnswer(s, id, user, text);
      KeepsRoom(c, s, reply) && (reply.Refused? ==> reply.next == s)
  {
    hide RoomInv, Remaining, Text.Strip;
    var reply := SubmitSessionAnswer(s, id, user, text);
    if reply.Ok? {
      OnlyCurrentInProgress(c, s, id);
      var x := reply.next.room.sessions[id - 1];
      RewriteKeeps(c, s, id - 1, x);
    }
  }

  /** What a registered session timer says about the session it names. */
  lemma SessionTimerTells(c: Config, s: Slice)
    requires RoomInv(c, s.room, s.timer) && s.timer.Some?
    requires s.timer.value.kind.AskTimer? || s.timer.value.kind.ReplyTimer? || s.timer.value.kind.JudgeTimer?
    ensures s.room.state.OneOnOne? && s.timer.value.session.Some?
    ensures var id := s.timer.value.session.value;
      && HasSession(s.room, id) && id - 1 == Current(s.room.sessions)
      && var x := s.room.sessions[id - 1];
         && x.sequence == id && x.audience in s.room.members && SessionFits(x, s.room.members[x.audience])
         && match s.timer.value.kind
            case AskTimer => x.state.Active? && x.question.None?
            case ReplyTimer => x.state.Active? && x.question.Some? && x.answer.None?
            case _ => x.state.Voting? && x.vote.None?
  {
    hide Roster, IsWalk, Listing, Benched, Ballots, AnsweredUpTo;
  }

  lemma AnswerTimeoutKeeps(c: Config, s: Slice)
    requires RoomInv(c, s.room, s.timer) && s.timer.Some? && s.timer.value.kind.ReplyTimer?
    ensures s.timer.value.session.Some?
    ensures var q := AnswerTimeout(s.(timer := None), s.timer.value.session.value);
      Advances(c, s.room, q)
  {
    SessionTimerTells(c, s);
    hide RoomInv, Remaining;
    var k := Current(s.room.sessions);
    RewriteKeeps(c, s, k, s.room.sessions[k].(answer := Some(NO_RESPONSE), state := SessionState.Voting));
  }

  // ----- A session ends -----

  /** Sessions over before k, and only pending ones from k on: the moment between two sessions. */
  ghost predicate BetweenSessions(xs: seq<Session>, k: nat) {
    && k <= |xs|
    && (forall j | 0 <= j < k :: xs[j].state.Completed?)
    && (forall j | k <= j < |xs| :: xs[j].state.Pending?)
  }

  /** The state in which activate_next_session finds a room when a session has just ended. */
  ghost predicate AfterSession(c: Config, s: Slice) {
    && Roster(c, s.room) && IsWalk(s.room.history, RoomState.Ready, RoomState.OneOnOne)
    && s.room.state.OneOnOne? && SessionRows(c, s.room)
    && BetweenSessions(s.room.sessions, Current(s.room.sessions))
  }

  lemma {:induction false} WorkLeft(xs: seq<Session>)
    ensures (forall x | x in xs :: x.state.Completed?) ==> Work(xs) == 0
  {
    if xs != [] {
      WorkLeft(xs[..|xs| - 1]);
    }
  }

  lemma OpenUnlessEliminated(c: Config, r: Room, u: UserId)
    requires Roster(c, r) && u in r.members && !r.members[u].status.Eliminated?
    ensures r.members[u].leftAt.None?
  {
  }

  /** The first pending session becomes active; none is stale. */
  lemma NextActivated(c: Config, s: Slice)
    requires AfterSession(c, s) && Current(s.room.sessions) < |s.room.sessions|
    ensures var k := Current(s.room.sessions);
      ActivateNextSession(s) == s.(
        room := s.room.(sessions := s.room.sessions[k := s.room.sessions[k].(state := SessionState.Active)]),
        timer := Some(Timer(AskTimer, Some(k + 1), None)))
  {
    hide Roster, IsWalk, Benched, Ballots, AnsweredUpTo, Listing, YesVoters;
    var xs := s.room.sessions;
    var k := Current(xs);
    assert SessionFits(xs[k], s.room.members[xs[k].audience]);
    OpenUnlessEliminated(c, s.room, xs[k].audience);
    var f := FirstLive(xs, s.room.members, 0);
    assert xs[k].state.Pending? && IsLive(s.room.members, xs[k].audience);
    assert f == k;
    assert Activated(xs, k) == xs[k := xs[k].(state := SessionState.Active)];
  }

  lemma NextKeeps(c: Config, s: Slice)
    requires AfterSession(c, s) && Current(s.room.sessions) < |s.room.sessions|
    ensures var q := ActivateNextSession(s);
      Running(c, q.room, q.timer) && Remaining(c, q.room) == Work(s.room.sessions) + 1
  {
    hide ActivateNextSession, RoomInv, Remaining, Running, Roster, IsWalk;
    NextActivated(c, s);
    var xs := s.room.sessions;
    var k := Current(xs);
    var x := xs[k].(state := SessionState.Active);
    RowRewritten(c, s.room, k, x);
    SequenceRewritten(xs, k, x);
    MidSessions(c, s.room.(sessions := xs[k := x]), Some(SessionTimer(x)));
  }

  // ----- No session is left -----

  ghost predicate AllOver(xs: seq<Session>) {
    forall x | x in xs :: x.state.Completed?
  }

  /** Sessions are a bijection with the survivors of the public vote. */
  lemma RollIsBijection(r: Room)
    requires SessionRoll(r)
    ensures forall x | x in r.sessions :: x.audience in YesVoters(r)
    ensures forall u | u in YesVoters(r) :: exists x :: x in r.sessions && x.audience == u
    ensures forall i, j | 0 <= i < j < |r.sessions| :: r.sessions[i].audience != r.sessions[j].audience
    ensures |r.sessions| == |YesVoters(r)|
  {
    var order := Order(r);
    assert YesVoters(r) <= JoinTimes(r).Keys;
    hide YesVoters;
    forall x | x in r.sessions ensures x.audience in YesVoters(r) {
      var i :| 0 <= i < |r.sessions| && r.sessions[i] == x;
      assert order[i] in order;
    }
    forall u | u in YesVoters(r) ensures exists x :: x in r.sessions && x.audience == u {
      assert u in order;
      var i :| 0 <= i < |order| && order[i] == u;
      assert r.sessions[i] in r.sessions;
    }
    forall i, j | 0 <= i < j < |r.sessions| ensures r.sessions[i].audience != r.sessions[j].audience {
      ListingDistinct(JoinTimes(r), YesVoters(r), i, j);
    }
  }

  lemma EachSessionFits(c: Config, r: Room)
    requires Roster(c, r) && SessionRows(c, r)
    ensures forall x | x in r.sessions :: x.audience in r.members && SessionFits(x, r.members[x.audience])
  {
    hide Roster, SessionRoll, SessionFits, Benched, Ballots, AnsweredUpTo;
  }

  /** Once every session is over, each session's vote decides its audience member's row. */
  lemma SessionDecides(c: Config, r: Room)
    requires Roster(c, r) && SessionRows(c, r) && AllOver(r.sessions)
    ensures forall x | x in r.sessions ::
      && x.audience in r.members
      && r.members[x.audience].status == if x.vote == Some(Yes) then Finalist else Status.Eliminated
  {
    EachSessionFits(c, r);
    hide SessionRows, Roster;
  }

  /** Once every session is over, the finalists are exactly the session Yes voters, and the rest of the panel is out. */
  lemma SessionsDecide(c: Config, r: Room)
    requires Roster(c, r) && SessionRows(c, r) && AllOver(r.sessions)
    ensures Finalists(r) == SaidYes(r.sessions) <= YesVoters(r)
    ensures forall u | u in Panel(r) ::
      r.members[u].status == if u in SaidYes(r.sessions) then Finalist else Status.Eliminated
  {
    RollIsBijection(r);
    SessionDecides(c, r);
    assert Benched(r);
    assert YesVoters(r) <= Panel(r);
    hide SessionRows, VoteOf, YesVoters, AllOver;
    var yes := SaidYes(r.sessions);
    forall u | u in YesVoters(r)
      ensures u in yes || r.members[u].status.Eliminated?
    {
      var x :| x in r.sessions && x.audience == u;
    }
    FinalistsAre(c, r, yes);
    hide Finalists;
  }

  lemma FinalistsAre(c: Config, r: Room, yes: set<UserId>)
    requires Roster(c, r) && yes <= Panel(r)
    requires forall u | u in Panel(r) :: r.members[u].status == if u in yes then Finalist else Status.Eliminated
    ensures Finalists(r) == yes
  {
    hide Distinct;
    assert Finalists(r) == yes;
  }

  /** The participant rows after a match: the pair is selected, the others are dismissed. */
  function PairMembers(r: Room, u: UserId, now: Time): map<UserId, Member> {
    Dismissed(WithStatus(r.members, {r.challenger, u}, Selected), Finalists(r) - {u}, now)
  }

  lemma PairStatuses(c: Config, r: Room, u: UserId, now: Time)
    requires Roster(c, r) && u in Finalists(r) && r.members[r.challenger].status.Active?
    requires forall v | v in Panel(r) :: v in Finalists(r) || r.members[v].status.Eliminated?
    ensures var q := PairMembers(r, u, now);
      && q.Keys == r.members.Keys
      && (forall v | v in q :: q[v].role == r.members[v].role && q[v].joinedAt == r.members[v].joinedAt)
      && forall v | v in q ::
           && q[v].status == (if v == r.challenger || v == u then Selected else Status.Eliminated)
           && (q[v].leftAt.Some? <==> q[v].status.Eliminated?)
  {
    hide Distinct;
    var q := PairMembers(r, u, now);
    forall v | v in q
      ensures q[v].status == (if v == r.challenger || v == u then Selected else Status.Eliminated)
      ensures q[v].leftAt.Some? <==> q[v].status.Eliminated?
    {
      assert v == r.challenger || v in Panel(r);
    }
  }

  lemma PairIs(s: Slice, u: UserId)
    ensures Eliminate(Paired(s, u), Finalists(s.room) - {u}).room == s.room.(
              members := PairMembers(s.room, u, s.now),
              pairing := Some(Pairing(s.room.challenger, u, MatchStatus.Created, WaitingForContacts, [])))
  {
    hide Finalists, WithState;
  }

  /** What a concluded room's sessions say does not depend on its status rows, state or history. */
  lemma StaysConcluded(r: Room, q: Room)
    requires Concluded(r) && SameRoster(r, q)
    requires q.votes == r.votes && q.round == r.round && q.sessions == r.sessions
    requires q.pairing.Some? <==> r.pairing.Some?
    requires q.pairing.Some? ==> q.pairing.value.audience == r.pairing.value.audience
    ensures Concluded(q)
  {
    hide SessionRoll, Ballots, Columns, SaidYes;
    RollStays(r, q);
    hide SameRoster;
  }

  lemma FittingColumns(x: Session, m: Member)
    requires SessionFits(x, m)
    ensures Columns(x)
  {
  }

  /** When every session is over a room concludes with one who said Yes, or with nobody when nobody did. */
  lemma Concludes(c: Config, r: Room, q: Room)
    requires Roster(c, r) && SessionRows(c, r) && AllOver(r.sessions) && SameRoster(r, q)
    requires q.votes == r.votes && q.round == r.round && q.sessions == r.sessions
    requires q.pairing.Some? <==> SaidYes(r.sessions) != {}
    requires q.pairing.Some? ==> q.pairing.value.audience in SaidYes(r.sessions)
    ensures Concluded(q)
  {
    hide SessionRoll, Ballots, Roster, SaidYes, Benched, Columns;
    RollStays(r, q);
    EachSessionFits(c, r);
    hide SameRoster, SessionRows;
    forall x | x in r.sessions ensures Columns(x) {
      FittingColumns(x, r.members[x.audience]);
    }
  }

  /** A completed room's rows, put together from their parts. */
  lemma PairedRoom(c: Config, r: Room, q: Room, u: UserId)
    requires Roster(c, r) && SameRoster(r, q) && u in Panel(r)
    requires forall v | v in q.members ::
           && q.members[v].status == (if v == r.challenger || v == u then Selected else Status.Eliminated)
           && (q.members[v].leftAt.Some? <==> q.members[v].status.Eliminated?)
    requires AnsweredUpTo(q, c.rounds) && Concluded(q)
    requires q.pairing.Some? && q.pairing.value.challenger == r.challenger && q.pairing.value.audience == u
    ensures Roster(c, q) && OverInv(c, q)
  {
    hide AnsweredUpTo, Distinct, Concluded;
    assert Panel(q) == Panel(r);
    hide Panel;
  }

  /** The rows once a finalist has been matched and the other finalists have been sent home. */
  lemma PairRows(c: Config, s: Slice, u: UserId)
    requires Roster(c, s.room) && SessionRows(c, s.room) && AllOver(s.room.sessions) && u in Finalists(s.room)
    ensures var q := Eliminate(Paired(s, u), Finalists(s.room) - {u}).room;
      Roster(c, q) && OverInv(c, q) && q.pairing.Some?
  {
    hide SessionRoll, Ballots, SessionFits, Distinct, YesVoters, AnsweredUpTo, Concluded;
    SessionsDecide(c, s.room);
    assert s.room.members[s.room.challenger].status.Active? && AnsweredUpTo(s.room, c.rounds);
    assert u in Panel(s.room) && u in SaidYes(s.room.sessions);
    hide SessionRows, SaidYes, Eliminate, Paired, AllOver;
    var q := Eliminate(Paired(s, u), Finalists(s.room) - {u}).room;
    PairIs(s, u);
    PairStatuses(c, s.room, u, s.now);
    hide Finalists, PairMembers, Panel, Roster, OverInv;
    AnswersStay(s.room, q, c.rounds);
    Concludes(c, s.room, q);
    PairedRoom(c, s.room, q, u);
  }

  /** A room whose outcome is decided moves through MATCHED to COMPLETED. */
  /** A completed room, put together from its parts. */
  lemma OverRoom(c: Config, r: Room)
    requires Roster(c, r) && r.state.Completed? && IsWalk(r.history, RoomState.Ready, RoomState.Completed) && OverInv(c, r)
    ensures Running(c, r, None) && Remaining(c, r) == 0
  {
    hide Roster, IsWalk, OverInv;
  }

  /** Neither state nor history matter to what a completed room's rows say. */
  lemma OverStays(c: Config, r: Room, q: Room)
    requires Roster(c, r) && OverInv(c, r) && q == r.(state := q.state, history := q.history)
    ensures Roster(c, q) && OverInv(c, q)
  {
    hide Concluded, Distinct;
    StaysConcluded(r, q);
    assert Panel(q) == Panel(r);
    hide Panel;
  }

  lemma SettledIs(s: Slice)
    requires s.timer.None? && (s.room.state.OneOnOne? || s.room.state.FinalSelection?)
    ensures Settled(s) == s.(room := s.room.(
      state := RoomState.Completed,
      history := s.room.history + [Move(s.room.state, RoomState.Matched)] + [Move(RoomState.Matched, RoomState.Completed)]))
  {
  }

  lemma SettledKeeps(c: Config, s: Slice)
    requires Roster(c, s.room) && OverInv(c, s.room) && s.timer.None?
    requires s.room.state.OneOnOne? || s.room.state.FinalSelection?
    requires IsWalk(s.room.history, RoomState.Ready, s.room.state)
    ensures var q := Settled(s);
      && Running(c, q.room, q.timer) && Remaining(c, q.room) == 0
      && q.room.state.Completed? && q.room.members == s.room.members && q.users == s.users && q.room.pairing == s.room.pairing
      && q == s.(room := s.room.(state := RoomState.Completed,
                                 history := s.room.history + [Move(s.room.state, RoomState.Matched)]
                                                           + [Move(RoomState.Matched, RoomState.Completed)]))
  {
    hide OverInv, Roster, IsWalk, Settled;
    var h := s.room.history;
    SettledIs(s);
    WalkExtends(h, RoomState.Ready, s.room.state, RoomState.Matched);
    WalkExtends(h + [Move(s.room.state, RoomState.Matched)], RoomState.Ready, RoomState.Matched, RoomState.Completed);
    OverStays(c, s.room, Settled(s).room);
    OverRoom(c, Settled(s).room);
  }

  lemma EliminateNobody(s: Slice)
    ensures Eliminate(s, {}) == s
  {
    assert Dismissed(s.room.members, {}, s.now) == s.room.members;
    assert WithState(s.users, {}, UserState.Waiting) == s.users;
  }

  /** With no session left, activate_next_session only closes the phase. */
  lemma ActivateCloses(c: Config, s: Slice)
    requires AfterSession(c, s) && Current(s.room.sessions) == |s.room.sessions|
    ensures ActivateNextSession(s) == CloseSessions(s.(timer := None))
    ensures AllOver(s.room.sessions) && Work(s.room.sessions) == 0
  {
    var xs := s.room.sessions;
    WorkLeft(xs);
    hide Roster, IsWalk, SessionRows, CloseSessions;
    var f := FirstLive(xs, s.room.members, 0);
    assert f == |xs|;
    assert Activated(xs, f) == xs;
    assert s.room.(sessions := xs) == s.room;
  }

  /** A change of state leaves what is known of the rows as it is. */
  lemma RowsStayPut(c: Config, r: Room, q: Room)
    requires Roster(c, r) && SessionRows(c, r)
    requires q == r.(state := q.state, history := q.history)
    ensures Roster(c, q) && SessionRows(c, q) && Finalists(q) == Finalists(r)
  {
    hide SessionRoll, Ballots, YesVoters, SessionFits, Distinct;
    RollStays(r, q);
    hide Panel;
    assert ActiveAudience(q) == ActiveAudience(r);
    assert Finalists(q) == Finalists(r);
    hide ActiveAudience, Finalists;
  }

  /** The invariant of a room in final selection, put together from its parts. */
  lemma Choosing(c: Config, r: Room, timer: Option<Timer>)
    requires Roster(c, r) && IsWalk(r.history, RoomState.Ready, r.state) && r.state.FinalSelection?
    requires SessionRows(c, r) && InSequence(r.sessions, Current(r.sessions)) && Current(r.sessions) == |r.sessions|
    requires |Finalists(r)| >= 2 && timer == Some(Timer(FinalTimer, None, None))
    ensures Running(c, r, timer) && Remaining(c, r) == 1
  {
    hide Roster, IsWalk, SessionRows, InSequence, Finalists;
  }

  /** Several finalists: the challenger has to choose. */
  lemma CloseWithMany(c: Config, s: Slice)
    requires AfterSession(c, s) && Current(s.room.sessions) == |s.room.sessions| && s.timer.None?
    requires |Finalists(s.room)| > 1
    ensures var q := CloseSessions(s);
      && Running(c, q.room, q.timer) && Remaining(c, q.room) == 1
      && q.room.state.FinalSelection? && q.room.members == s.room.members
  {
    hide IsWalk, SessionRows, Roster, Finalists, RoomInv, Remaining, Running;
    WalkExtends(s.room.history, RoomState.Ready, RoomState.OneOnOne, RoomState.FinalSelection);
    var q := Committed(s.room, RoomState.FinalSelection);
    RowsStayPut(c, s.room, q);
    assert CloseSessions(s) == Moved(s, RoomState.FinalSelection);
    assert InSequence(q.sessions, Current(q.sessions)) && Current(q.sessions) == |q.sessions|;
    hide BetweenSessions, InSequence, CloseSessions;
    Choosing(c, q, Some(Timer(FinalTimer, None, None)));
  }

  /** One finalist: the room is matched at once. */
  lemma CloseWithOne(c: Config, s: Slice, survivor: UserId)
    requires AfterSession(c, s) && AllOver(s.room.sessions) && s.timer.None?
    requires Finalists(s.room) == {survivor}
    ensures CloseSessions(s) == Settled(Eliminate(Paired(s, survivor), Finalists(s.room) - {survivor}))
    ensures var q := CloseSessions(s);
      && Running(c, q.room, q.timer) && Remaining(c, q.room) == 0
      && q.room.state.Completed? && q.room.pairing.Some? && q.room.pairing.value.audience == survivor
  {
    PairRows(c, s, survivor);
    PairIs(s, survivor);
    EliminateNobody(Paired(s, survivor));
    var t := Eliminate(Paired(s, survivor), Finalists(s.room) - {survivor});
    assert Finalists(s.room) - {survivor} == {};
    assert t == Paired(s, survivor);
    assert s.room.pairing.None? && s.room.state.OneOnOne? && IsWalk(s.room.history, RoomState.Ready, RoomState.OneOnOne);
    assert CloseSessions(s) == Settled(t);
    hide AfterSession, CloseSessions, Eliminate, PairMembers, Finalists, Roster, OverInv, IsWalk, RoomInv, Remaining;
    SettledKeeps(c, t);
    hide Settled;
  }

  /** What is left of a room when its sessions have ended. */
  lemma LastParts(c: Config, s: Slice)
    requires AfterSession(c, s)
    ensures s.room.challenger in s.room.members && s.room.pairing.None? && s.room.state.OneOnOne?
    ensures s.room.members[s.room.challenger].status.Active? && s.room.members[s.room.challenger].leftAt.None?
  {
    hide IsWalk, SessionRoll, BetweenSessions, Ballots, SessionFits, AnsweredUpTo, Distinct;
  }

  /** With nobody to match, releasing the challenger leaves a room everybody has left. */
  lemma ReleasedRows(c: Config, s: Slice)
    requires Roster(c, s.room) && SessionRows(c, s.room) && AllOver(s.room.sessions) && Finalists(s.room) == {}
    ensures var t := Eliminate(s, {s.room.challenger}).room; Roster(c, t) && OverInv(c, t) && t.pairing.None?
  {
    hide SessionRoll, Ballots, SessionFits, AnsweredUpTo, Distinct, YesVoters, SaidYes, Columns;
    SessionsDecide(c, s.room);
    var t := Eliminate(s, {s.room.challenger}).room;
    OneRow(s.room.members, s.room.challenger, Status.Eliminated, s.now);
    assert Panel(t) == Panel(s.room);
    forall u | u in t.members ensures t.members[u].status.Eliminated? {
      assert u == s.room.challenger || u in Panel(s.room);
    }
    AnswersStay(s.room, t, c.rounds);
    Concludes(c, s.room, t);
    hide SessionRows, AllOver, Finalists, Concluded, Panel;
  }

  lemma AnswersStay(r: Room, q: Room, k: nat)
    requires AnsweredUpTo(r, k) && q.answers == r.answers && q.questions == r.questions && q.challenger == r.challenger
    ensures AnsweredUpTo(q, k)
  {
  }

  /** No finalist: everybody, the challenger included, is released. */
  lemma CloseWithNone(c: Config, s: Slice)
    requires AfterSession(c, s) && AllOver(s.room.sessions) && s.timer.None?
    requires Finalists(s.room) == {}
    ensures var q := CloseSessions(s);
      && Running(c, q.room, q.timer) && Remaining(c, q.room) == 0
      && q.room.state.Completed? && q.room.pairing.None?
      && q == Moved(Eliminate(s, {s.room.challenger}), RoomState.Completed)
  {
    hide IsWalk, SessionRows, OverInv, AllOver, Roster, Running, Remaining, BetweenSessions;
    LastParts(c, s);
    ReleasedRows(c, s);
    var t := Eliminate(s, {s.room.challenger});
    assert CloseSessions(s) == Moved(t, RoomState.Completed);
    hide CloseSessions, AfterSession, Finalists;
    WalkExtends(s.room.history, RoomState.Ready, RoomState.OneOnOne, RoomState.Completed);
    OverStays(c, t.room, Moved(t, RoomState.Completed).room);
    OverRoom(c, Moved(t, RoomState.Completed).room);
  }

  /** What activate_next_session makes of a room whose session has just ended. */
  lemma TimerAside(c: Config, s: Slice)
    requires AfterSession(c, s)
    ensures AfterSession(c, s.(timer := None))
  {
    hide Roster, IsWalk, SessionRows, BetweenSessions;
  }

  lemma ActivateKeeps(c: Config, s: Slice)
    requires AfterSession(c, s)
    ensures var q := ActivateNextSession(s);
      Running(c, q.room, q.timer) && Remaining(c, q.room) <= Work(s.room.sessions) + 1
  {
    hide AfterSession, ActivateNextSession, CloseSessions, Running, Remaining, Work, Finalists, Current, AllOver;
    if Current(s.room.sessions) < |s.room.sessions| {
      NextKeeps(c, s);
    } else {
      ActivateCloses(c, s);
      var s0 := s.(timer := None);
      TimerAside(c, s);
      if |Finalists(s.room)| > 1 {
        CloseWithMany(c, s0);
      } else if Finalists(s.room) == {} {
        CloseWithNone(c, s0);
      } else {
        var u :| u in Finalists(s.room);
        assert |Finalists(s.room) - {u}| == 0;
        assert Finalists(s.room) == {u};
        CloseWithOne(c, s0, u);
      }
    }
  }

  /** Rewriting one audience member's row, kept consistent, keeps the roster. */
  lemma RosterEnded(c: Config, r: Room, u: UserId, m: Member, q: Room)
    requires Roster(c, r) && u in Panel(r)
    requires m.role == r.members[u].role && m.joinedAt == r.members[u].joinedAt
    requires m.leftAt.Some? <==> m.status.Eliminated?
    requires q == r.(sessions := q.sessions, members := r.members[u := m])
    ensures Roster(c, q) && SameRoster(r, q)
  {
    hide Distinct;
    assert Panel(q) == Panel(r);
  }

  /** Only the session of the rewritten row has to fit it. */
  lemma FitsEnded(c: Config, r: Room, k: nat, x: Session, m: Member)
    requires Roster(c, r) && SessionRows(c, r) && k < |r.sessions|
    requires SameKey(x, r.sessions[k]) && SessionFits(x, m)
    ensures x.audience in YesVoters(r)
    ensures var members := r.members[x.audience := m]; var xs := r.sessions[k := x];
      forall i | 0 <= i < |xs| :: xs[i].audience in members && SessionFits(xs[i], members[xs[i].audience])
  {
    RollIsBijection(r);
    assert r.sessions[k] in r.sessions;
    EachSessionFits(c, r);
    hide SessionFits, SessionRows, Roster, YesVoters;
    var members := r.members[x.audience := m];
    var xs := r.sessions[k := x];
    forall i | 0 <= i < |xs| ensures xs[i].audience in members && SessionFits(xs[i], members[xs[i].audience]) {
      if i != k {
        assert xs[i] == r.sessions[i] && r.sessions[i] in r.sessions;
        assert r.sessions[i].audience != x.audience;
      }
    }
  }

  /** The row of a public-vote survivor is not on the bench. */
  lemma BenchUntouched(c: Config, r: Room, u: UserId, m: Member, q: Room)
    requires Roster(c, r) && Benched(r) && u in YesVoters(r)
    requires q == r.(sessions := q.sessions, members := r.members[u := m])
    requires YesVoters(q) == YesVoters(r) && Panel(q) == Panel(r)
    ensures Benched(q)
  {
    assert u in Panel(r);
    assert u != r.challenger;
    hide VoteOf, Distinct;
  }

  /** Ending the current session and settling its audience member's row. */
  lemma YesVotersArePanel(r: Room)
    ensures YesVoters(r) <= Panel(r)
  {
  }

  lemma RowEnded(c: Config, r: Room, k: nat, x: Session, m: Member)
    requires Roster(c, r) && SessionRows(c, r) && k < |r.sessions|
    requires SameKey(x, r.sessions[k]) && SessionFits(x, m)
    requires x.audience in r.members
    requires var n := r.members[x.audience]; m.role == n.role && m.joinedAt == n.joinedAt
    requires m.leftAt.Some? <==> m.status.Eliminated?
    ensures var q := r.(sessions := r.sessions[k := x], members := r.members[x.audience := m]);
      Roster(c, q) && SessionRows(c, q)
  {
    hide SessionFits, Roster, Panel, Benched, YesVoters, SessionRoll, Ballots;
    var q := r.(sessions := r.sessions[k := x], members := r.members[x.audience := m]);
    FitsEnded(c, r, k, x, m);
    YesVotersArePanel(r);
    RosterEnded(c, r, x.audience, m, q);
    RollStays(r, q);
    hide SameRoster;
    BenchUntouched(c, r, x.audience, m, q);
  }

  lemma SequenceEnded(xs: seq<Session>, k: nat, x: Session)
    requires k < |xs| && InSequence(xs, k) && x.state.Completed?
    ensures var ys := xs[k := x];
      Current(ys) == k + 1 && BetweenSessions(ys, k + 1) && Work(ys) == Work(xs) - SessionWork(xs[k])
  {
    CurrentIs(xs[k := x], k + 1);
    WorkChanges(xs, k, x);
  }

  lemma StillToDo(xs: seq<Session>)
    requires Current(xs) < |xs|
    ensures SessionWork(xs[Current(xs)]) > 0
  {
  }

  lemma SessionEnded(c: Config, s: Slice, x: Session, m: Member, t: Slice)
    requires RoomInv(c, s.room, s.timer) && s.room.state.OneOnOne?
    requires var k := Current(s.room.sessions); k < |s.room.sessions| && SameKey(x, s.room.sessions[k])
    requires x.audience in s.room.members
    requires var n := s.room.members[x.audience]; m.role == n.role && m.joinedAt == n.joinedAt
    requires SessionFits(x, m) && x.state.Completed? && (m.leftAt.Some? <==> m.status.Eliminated?)
    requires t.room == s.room.(sessions := s.room.sessions[Current(s.room.sessions) := x],
                               members := s.room.members[x.audience := m])
    ensures AfterSession(c, t)
    ensures Work(t.room.sessions) + 1 == Remaining(c, s.room) - SessionWork(s.room.sessions[Current(s.room.sessions)])
    ensures SessionWork(s.room.sessions[Current(s.room.sessions)]) > 0
  {
    hide RoomInv, Remaining, Roster, IsWalk, SessionRows, BetweenSessions, SessionFits, Current;
    var k := Current(s.room.sessions);
    InSessions(c, s.room, s.timer);
    StillToDo(s.room.sessions);
    SequenceEnded(s.room.sessions, k, x);
    RowEnded(c, s.room, k, x, m);
  }

  /** Dismissing or promoting one participant rewrites one row. */
  lemma OneRow(members: map<UserId, Member>, u: UserId, status: Status, now: Time)
    requires u in members
    ensures Dismissed(members, {u}, now) == members[u := members[u].(status := Status.Eliminated, leftAt := Some(now))]
    ensures WithStatus(members, {u}, status) == members[u := members[u].(status := status)]
  {
  }

  /** A session vote rewrites one session and one participant row. */
  lemma JudgedIs(s: Slice, id: nat, choice: Choice)
    requires HasSession(s.room, id) && s.room.sessions[id - 1].audience in s.room.members
    ensures var y := s.room.sessions[id - 1]; var n := s.room.members[y.audience];
      Judged(s, id, choice).room == s.room.(
        sessions := s.room.sessions[id - 1 := y.(vote := Some(choice), state := SessionState.Completed)],
        members := s.room.members[y.audience :=
          if choice.No? then n.(status := Status.Eliminated, leftAt := Some(s.now)) else n.(status := Finalist)])
  {
    OneRow(s.room.members, s.room.sessions[id - 1].audience, Finalist, s.now);
    hide Dismissed, WithStatus, WithState;
  }

  lemma JudgedKeeps(c: Config, s: Slice, id: nat, choice: Choice)
    requires RoomInv(c, s.room, s.timer) && HasSession(s.room, id)
    requires s.room.sessions[id - 1].state.Voting?
    ensures var t := Judged(s, id, choice);
      AfterSession(c, t) && Work(t.room.sessions) + 2 == Remaining(c, s.room)
  {
    hide RoomInv, Remaining, AfterSession, Judged;
    OnlyCurrentInProgress(c, s, id);
    var y := s.room.sessions[id - 1];
    OpenRow(c, s, y.audience);
    JudgedIs(s, id, choice);
    var x := y.(vote := Some(choice), state := SessionState.Completed);
    var n := s.room.members[y.audience];
    var m := if choice.No? then n.(status := Status.Eliminated, leftAt := Some(s.now)) else n.(status := Finalist);
    SessionEnded(c, s, x, m, Judged(s, id, choice));
  }

  lemma SubmitSessionVoteKeeps(c: Config, s: Slice, id: nat, user: UserId, choice: Choice)
    requires RoomInv(c, s.room, s.timer)
    ensures var reply := SubmitSessionVote(s, id, user, choice);
      KeepsRoom(c, s, reply) && (reply.Refused? ==> reply.next == s)
  {
    hide ActivateNextSession, RoomInv, Remaining, AfterSession, Judged;
    if SubmitSessionVote(s, id, user, choice).Ok? {
      JudgedKeeps(c, s, id, choice);
      ActivateKeeps(c, Judged(s, id, choice));
    }
  }

  lemma OpenRow(c: Config, s: Slice, u: UserId)
    requires RoomInv(c, s.room, s.timer) && u in s.room.members && s.room.members[u].status.Active?
    ensures s.room.members[u].leftAt.None?
  {
  }

  /** The session and its audience member's row when the question never came. */
  function Unasked(s: Slice, id: nat): Slice
    requires HasSession(s.room, id)
  {
    var x := s.room.sessions[id - 1];
    Eliminate(WithSession(s, id, x.(state := SessionState.Completed)), {x.audience})
  }

  lemma UnaskedTimeout(s: Slice, id: nat)
    requires HasSession(s.room, id) && s.room.sessions[id - 1].state.Active? && s.room.sessions[id - 1].question.None?
    ensures QuestionTimeout(s, id) == ActivateNextSession(Unasked(s, id))
  {
    hide ActivateNextSession, Eliminate;
  }

  lemma UnaskedIs(s: Slice, id: nat)
    requires HasSession(s.room, id) && s.room.sessions[id - 1].audience in s.room.members
    ensures var y := s.room.sessions[id - 1]; var n := s.room.members[y.audience];
      Unasked(s, id).room == s.room.(
        sessions := s.room.sessions[id - 1 := y.(state := SessionState.Completed)],
        members := s.room.members[y.audience := n.(status := Status.Eliminated, leftAt := Some(s.now))])
  {
    OneRow(s.room.members, s.room.sessions[id - 1].audience, Finalist, s.now);
    hide Dismissed, WithStatus, WithState;
  }

  lemma UnaskedKeeps(c: Config, s: Slice, id: nat)
    requires RoomInv(c, s.room, s.timer) && HasSession(s.room, id)
    requires s.room.sessions[id - 1].state.Active? && s.room.sessions[id - 1].question.None?
    ensures var t := Unasked(s.(timer := None), id);
      AfterSession(c, t) && Work(t.room.sessions) + 1 < Remaining(c, s.room)
  {
    hide RoomInv, Remaining, AfterSession, Unasked;
    OnlyCurrentInProgress(c, s, id);
    UnaskedIs(s.(timer := None), id);
    var x := s.room.sessions[id - 1].(state := SessionState.Completed);
    var m := s.room.members[x.audience].(status := Status.Eliminated, leftAt := Some(s.now));
    SessionEnded(c, s, x, m, Unasked(s.(timer := None), id));
  }

  lemma QuestionTimeoutKeeps(c: Config, s: Slice)
    requires RoomInv(c, s.room, s.timer) && s.timer.Some? && s.timer.value.kind.AskTimer?
    ensures s.timer.value.session.Some?
    ensures var q := QuestionTimeout(s.(timer := None), s.timer.value.session.value);
      Advances(c, s.room, q)
  {
    hide RoomInv, Remaining, Running, ActivateNextSession, AfterSession, Unasked, Current;
    SessionTimerTells(c, s);
    var id := s.timer.value.session.value;
    UnaskedTimeout(s.(timer := None), id);
    UnaskedKeeps(c, s, id);
    ActivateKeeps(c, Unasked(s.(timer := None), id));
  }

  lemma VoteTimeoutKeeps(c: Config, s: Slice)
    requires RoomInv(c, s.room, s.timer) && s.timer.Some? && s.timer.value.kind.JudgeTimer?
    ensures s.timer.value.session.Some?
    ensures var q := VoteTimeout(s.(timer := None), s.timer.value.session.value);
      Advances(c, s.room, q)
  {
    SessionTimerTells(c, s);
    hide RoomInv, Remaining, ActivateNextSession;
    var id := s.timer.value.session.value;
    var s0 := s.(timer := None);
    var user := s.room.sessions[id - 1].audience;
    SubmitSessionVoteKeeps(c, s, id, user, No);
    assert Judged(s0, id, No) == Judged(s, id, No);
    assert SubmitSessionVote(s0, id, user, No) == SubmitSessionVote(s, id, user, No);
  }

  // ----- Final selection -----

  lemma ChallengerIsNoFinalist(c: Config, r: Room)
    requires Roster(c, r)
    ensures r.challenger !in Finalists(r)
  {
  }

  lemma FinalParts(c: Config, r: Room, timer: Option<Timer>)
    requires RoomInv(c, r, timer) && r.state.FinalSelection?
    ensures Roster(c, r) && IsWalk(r.history, RoomState.Ready, r.state) && SessionRows(c, r) && AllOver(r.sessions)
    ensures r.pairing.None? && |Finalists(r)| >= 2 && Remaining(c, r) == 1
    ensures timer.None? || timer == Some(Timer(FinalTimer, None, None))
  {
    hide Roster, IsWalk, SessionRoll, Benched, Ballots, SessionFits;
  }

  lemma CreateMatchKeeps(c: Config, s: Slice, challenger: UserId, candidate: UserId)
    requires RoomInv(c, s.room, s.timer)
    ensures var reply := CreateMatch(s, challenger, candidate);
      KeepsRoom(c, s, reply) && (reply.Refused? ==> reply.next == s.(timer := AfterCancel(s.timer, Some(FinalTimer))))
  {
    hide KeepsRoom, RoomInv, CreateMatch;
    var reply := CreateMatch(s, challenger, candidate);
    if reply.Ok? {
      MatchKeeps(c, s, challenger, candidate);
    } else {
      RefusalKeeps(c, s, challenger, candidate);
    }
  }

  lemma MatchKeeps(c: Config, s: Slice, challenger: UserId, candidate: UserId)
    requires RoomInv(c, s.room, s.timer) && CreateMatch(s, challenger, candidate).Ok?
    ensures KeepsRoom(c, s, CreateMatch(s, challenger, candidate))
  {
    hide RoomInv, Remaining, SessionRows, Finalists, Roster, IsWalk, Settled, OverInv, AllOver;
    FinalParts(c, s.room, s.timer);
    var s0 := s.(timer := None);
    var t := Eliminate(Paired(s0, candidate), Finalists(s.room) - {candidate});
    assert CreateMatch(s, challenger, candidate).next == Settled(t);
    PairRows(c, s0, candidate);
    PairIs(s0, candidate);
    assert t.timer.None? && t.room.state.FinalSelection? && t.room.history == s.room.history;
    hide Eliminate, Paired, PairMembers, CreateMatch;
    SettledKeeps(c, t);
  }

  /** A refused selection can only cost the room its final-selection timer. */
  lemma RefusalKeeps(c: Config, s: Slice, challenger: UserId, candidate: UserId)
    requires RoomInv(c, s.room, s.timer) && CreateMatch(s, challenger, candidate).Refused?
    ensures var reply := CreateMatch(s, challenger, candidate);
      KeepsRoom(c, s, reply) && reply.next == s.(timer := AfterCancel(s.timer, Some(FinalTimer)))
  {
    hide Roster, IsWalk, PhaseInv, Finalists;
  }

  lemma FinalTimerTells(c: Config, r: Room, timer: Option<Timer>)
    requires RoomInv(c, r, timer) && timer.Some? && timer.value.kind.FinalTimer?
    ensures r.state.FinalSelection?
  {
    hide Roster, IsWalk, PhaseInv;
  }

  lemma FinalSelectionTimeoutKeeps(c: Config, s: Slice, pick: UserId)
    requires RoomInv(c, s.room, s.timer) && s.timer.Some? && s.timer.value.kind.FinalTimer?
    requires pick in Finalists(s.room)
    ensures s.room.state.FinalSelection?
    ensures CreateMatch(s.(timer := None), s.room.challenger, pick).Ok?
    ensures var q := FinalSelectionTimeout(s.(timer := None), pick);
      Advances(c, s.room, q)
  {
    hide RoomInv, Running, Remaining, Roster, IsWalk, SessionRows, AllOver, Finalists, Settled, Paired, Eliminate;
    FinalTimerTells(c, s.room, s.timer);
    FinalParts(c, s.room, s.timer);
    ChallengerIsNoFinalist(c, s.room);
    CreateMatchKeeps(c, s, s.room.challenger, pick);
  }
}
