/** The steps of questioning and public voting keep the room invariant and use up the room's steps. */
module QuestioningVoting {
  import opened Domain
  import opened Ordering
  import opened RoomStates
  import opened Protocol
  import opened RoomInvariant

  // ----- Questioning -----

  lemma AnswersSoFar(c: Config, r: Room)
    requires Roster(c, r) && 1 <= r.round <= c.rounds && AnsweredUpTo(r, r.round - 1)
    ensures !HasAnswer(r, r.questions[r.round - 1], r.challenger)
    ensures AnsweredBy(r, r.challenger) == set i | 0 <= i < r.round - 1 :: r.questions[i]
  {
    forall a | a in r.answers ensures a.question != r.questions[r.round - 1] {
      var i :| 0 <= i < |r.answers| && r.answers[i] == a;
    }
    var left := AnsweredBy(r, r.challenger);
    var right := set i | 0 <= i < r.round - 1 :: r.questions[i];
    forall q | q in left ensures q in right {
      var a :| a in r.answers && a.user == r.challenger && a.question == q;
      var i :| 0 <= i < |r.answers| && r.answers[i] == a;
    }
    forall q | q in right ensures q in left {
      var i :| 0 <= i < r.round - 1 && r.questions[i] == q;
      assert r.answers[i] in r.answers;
    }
  }

  /** The fillers are exactly the placeholders for the questions after the answered ones. */
  lemma {:induction false} FillersCompleteTheList(qs: seq<QuestionId>, k: nat, done: set<QuestionId>, u: UserId)
    requires Distinct(qs)
    requires forall i | 0 <= i < |qs| :: qs[i] in done <==> i < k
    ensures Fillers(qs, done, u) ==
      if |qs| <= k then []
      else seq(|qs| - k, i requires 0 <= i < |qs| - k => Domain.Answer(qs[k + i], u, NO_RESPONSE))
  {
    if qs != [] {
      FillersCompleteTheList(qs[..|qs| - 1], k, done, u);
    }
  }

  lemma EntersVoting(c: Config, s: Slice)
    requires Roster(c, s.room) && IsWalk(s.room.history, RoomState.Ready, RoomState.Questioning)
    requires s.room.state.Questioning? && AllActive(s.room)
    requires s.room.votes == [] && s.room.sessions == [] && s.room.pairing.None?
    requires 1 <= s.room.round <= c.rounds && AnsweredUpTo(s.room, c.rounds)
    ensures var q := Transition(s, RoomState.Voting).next;
      Running(c, q.room, q.timer) && Remaining(c, q.room) == 4 * |Panel(q.room)| + 1
  {
    var q := Transition(s, RoomState.Voting).next;
    WalkExtends(s.room.history, RoomState.Ready, RoomState.Questioning, RoomState.Voting);
    assert Panel(q.room) == Panel(s.room);
  }

  lemma SubmitAnswerKeeps(c: Config, s: Slice, user: UserId, text: string)
    requires RoomInv(c, s.room, s.timer)
    ensures var reply := SubmitAnswer(c, s, user, text);
      KeepsRoom(c, s, reply) && (reply.Refused? ==> reply.next == s)
  {
    var r := s.room;
    if SubmitAnswer(c, s, user, text).Ok? {
      AnswersSoFar(c, r);
      var q := r.(answers := r.answers + [Domain.Answer(r.questions[r.round - 1], user, text)]);
      assert AnsweredUpTo(q, r.round);
      assert Panel(q) == Panel(r);
      if r.round < c.rounds {
        var p := SubmitAnswer(c, s, user, text).next.room;
        assert Panel(p) == Panel(r);
      } else {
        EntersVoting(c, s.(room := q));
      }
    }
  }

  /** The questioning timeout adds placeholders for exactly the unanswered questions. */
  lemma FillersAre(c: Config, r: Room)
    requires Roster(c, r) && 1 <= r.round <= c.rounds && AnsweredUpTo(r, r.round - 1)
    ensures var fillers := Fillers(AskedQuestions(c, r), AnsweredBy(r, r.challenger), r.challenger);
      && (forall i | 0 <= i < |fillers| :: fillers[i].text == NO_RESPONSE)
      && AnsweredUpTo(r.(answers := r.answers + fillers), c.rounds)
  {
    AnswersSoFar(c, r);
    var done := AnsweredBy(r, r.challenger);
    assert AskedQuestions(c, r) == r.questions;
    hide AnsweredBy;
    assert forall i | 0 <= i < |r.questions| :: r.questions[i] in done <==> i < r.round - 1;
    FillersCompleteTheList(r.questions, r.round - 1, done, r.challenger);
  }

  lemma QuestioningTimeoutKeeps(c: Config, s: Slice)
    requires RoomInv(c, s.room, s.timer) && s.room.state.Questioning?
    ensures var q := QuestioningTimeout(c, s.(timer := None));
      Advances(c, s.room, q)
  {
    var r := s.room;
    FillersAre(c, r);
    hide Fillers, AnsweredBy, AskedQuestions;
    var q := r.(answers := r.answers + Fillers(AskedQuestions(c, r), AnsweredBy(r, r.challenger), r.challenger));
    assert Panel(q) == Panel(r);
    EntersVoting(c, s.(room := q, timer := None));
  }

  // ----- Counting votes -----

  lemma {:induction false} VoteFound(votes: seq<Vote>, round: nat, u: UserId)
    ensures VoteOf(votes, round, u).Some? <==> exists i :: 0 <= i < |votes| && votes[i].round == round && votes[i].voter == u
    ensures VoteOf(votes, round, u).Some? ==>
      exists i :: 0 <= i < |votes| && votes[i] == Domain.Vote(round, u, VoteOf(votes, round, u).value)
  {
    if votes != [] {
      VoteFound(votes[..|votes| - 1], round, u);
    }
  }

  function Voters(votes: seq<Vote>): set<UserId> {
    set v | v in votes :: v.voter
  }

  lemma {:induction false} DistinctVotersCount(votes: seq<Vote>, round: nat)
    requires forall i | 0 <= i < |votes| :: votes[i].round == round
    requires forall i, j | 0 <= i < j < |votes| :: votes[i].voter != votes[j].voter
    ensures VotesIn(votes, round) == |votes| == |Voters(votes)|
  {
    if votes == [] {
      assert Voters(votes) == {};
    } else {
      var n := |votes| - 1;
      DistinctVotersCount(votes[..n], round);
      assert votes == votes[..n] + [votes[n]];
      assert Voters(votes) == Voters(votes[..n]) + {votes[n].voter};
      assert votes[n].voter !in Voters(votes[..n]);
    }
  }

  lemma SubsetCount<T>(s: set<T>, t: set<T>)
    requires s <= t
    ensures |s| <= |t|
    ensures |s| == |t| ==> s == t
  {
    assert t == s + (t - s);
    assert |t| == |s| + |t - s|;
  }

  /** The active audience members who have not voted this round. */
  function Silent(r: Room): set<UserId> {
    set u | u in ActiveAudience(r) && VoteOf(r.votes, r.round, u).None?
  }

  /**
   In VOTING the votes of the round inject into the active audience: their number reaches the
   number of voters exactly when every active member has voted, and the difference, which is never
   negative, is the number of members who have not.
   */
  lemma VotePigeonhole(c: Config, r: Room)
    requires Roster(c, r) && AllActive(r) && Ballots(r)
    ensures VotesIn(r.votes, r.round) == |r.votes|
    ensures |ActiveAudience(r)| - |r.votes| == |Silent(r)|
    ensures |r.votes| >= |ActiveAudience(r)| <==> Silent(r) == {}
  {
    DistinctVotersCount(r.votes, r.round);
    var silent := Silent(r);
    var voters := Voters(r.votes);
    assert ActiveAudience(r) == Panel(r);
    forall u ensures u in voters <==> VoteOf(r.votes, r.round, u).Some? {
      VoteFound(r.votes, r.round, u);
      if VoteOf(r.votes, r.round, u).Some? {
        var i :| 0 <= i < |r.votes| && r.votes[i].round == r.round && r.votes[i].voter == u;
        assert r.votes[i] in r.votes;
      }
    }
    assert voters <= Panel(r);
    assert Panel(r) == voters + silent;
    assert voters !! silent;
    assert |voters + silent| == |voters| + |silent|;
  }

  // ----- Sums of session work -----

  lemma {:induction false} WorkChanges(xs: seq<Session>, k: nat, x: Session)
    requires k < |xs|
    ensures Work(xs[k := x]) == Work(xs) - SessionWork(xs[k]) + SessionWork(x)
  {
    var n := |xs| - 1;
    var ys := xs[k := x];
    if k == n {
      assert ys[..n] == xs[..n];
    } else {
      assert ys[..n] == xs[..n][k := x];
      WorkChanges(xs[..n], k, x);
    }
  }

  lemma {:induction false} WorkAgrees(xs: seq<Session>, ys: seq<Session>)
    requires |xs| == |ys| && forall i | 0 <= i < |xs| :: SessionWork(xs[i]) == SessionWork(ys[i])
    ensures Work(xs) == Work(ys)
  {
    if xs != [] {
      WorkAgrees(xs[..|xs| - 1], ys[..|ys| - 1]);
    }
  }

  lemma {:induction false} WorkOfFresh(xs: seq<Session>)
    requires forall x | x in xs :: SessionWork(x) == 3
    ensures Work(xs) == 3 * |xs|
  {
    if xs != [] {
      WorkOfFresh(xs[..|xs| - 1]);
    }
  }

  // ----- Finalizing the public vote -----

  /** A room whose public vote can be finalized: VOTING, with some or all of the votes in. */
  ghost predicate Countable(c: Config, r: Room) {
    && Roster(c, r) && IsWalk(r.history, RoomState.Ready, r.state) && r.state.Voting?
    && AllActive(r) && r.sessions == [] && r.pairing.None?
    && 1 <= r.round <= c.rounds && AnsweredUpTo(r, c.rounds) && Ballots(r)
  }

  /** The elimination commit keeps the Yes voters, dismisses everybody else and, if nobody stays, the challenger. */
  lemma TallyRows(c: Config, s: Slice)
    requires Roster(c, s.room) && AllActive(s.room)
    ensures var q := Tally(s).room; var yes := YesVoters(s.room);
      && Keepers(s.room) == yes
      && SameRoster(s.room, q) && q == s.room.(members := q.members)
      && ActiveAudience(q) == yes && Panel(q) == Panel(s.room) && YesVoters(q) == yes
      && JoinTimes(q) == JoinTimes(s.room)
      && (forall u | u in Panel(q) ::
           q.members[u].status == if u in yes then Status.Active else Status.Eliminated)
      && q.members[q.challenger].status == (if yes != {} then Status.Active else Status.Eliminated)
      && Roster(c, q)
  {
    var q := Tally(s).room;
    assert ActiveAudience(s.room) == Panel(s.room);
    assert Panel(q) == Panel(s.room);
  }

  /** Leaving VOTING and tallying gives a room ready for its sessions, or one in which nobody is left. */
  lemma TallyKeeps(c: Config, s: Slice)
    requires Countable(c, s.room) && s.timer.None?
    ensures var s1 := Moved(s, RoomState.Elimination); var t := Tally(s1);
      && Keepers(s1.room) == YesVoters(s.room) == YesVoters(t.room) && Panel(t.room) == Panel(s.room)
      && Roster(c, t.room) && t.room.state.Elimination? && t.timer.None?
      && IsWalk(t.room.history, RoomState.Ready, RoomState.Elimination)
      && t.room == s1.room.(members := t.room.members)
      && if YesVoters(s.room) != {} then Tallied(c, t.room) else Emptied(c, t.room)
  {
    var s1 := Moved(s, RoomState.Elimination);
    WalkExtends(s.room.history, RoomState.Ready, RoomState.Voting, RoomState.Elimination);
    assert Panel(s1.room) == Panel(s.room);
    assert YesVoters(s1.room) == YesVoters(s.room);
    assert Roster(c, s1.room);
    TallyRows(c, s1);
  }

  /** A room that has tallied its votes without a survivor. */
  ghost predicate Emptied(c: Config, r: Room) {
    && Roster(c, r) && r.sessions == [] && r.pairing.None?
    && AnsweredUpTo(r, c.rounds) && Ballots(r) && YesVoters(r) == {}
    && forall u | u in r.members :: r.members[u].status.Eliminated?
  }

  lemma NobodyLeft(c: Config, t: Slice)
    requires Emptied(c, t.room) && t.room.state.Elimination? && t.timer.None?
    requires IsWalk(t.room.history, RoomState.Ready, RoomState.Elimination)
    ensures var q := Moved(t, RoomState.Completed); Running(c, q.room, q.timer) && Remaining(c, q.room) == 0
  {
    hide VoteOf;
    WalkExtends(t.room.history, RoomState.Ready, RoomState.Elimination, RoomState.Completed);
    var q := Moved(t, RoomState.Completed).room;
    assert Panel(q) == Panel(t.room);
    hide Panel;
    assert YesVoters(q) == YesVoters(t.room);
    assert |Order(q)| == 0;
    hide Listing, IsWalk, Distinct;
  }

  lemma FinalizeKeeps(c: Config, s: Slice)
    requires Countable(c, s.room)
    requires s.timer.None? || s.timer.value.kind.VotingTimer?
    ensures var q := FinalizeVoting(s);
      && Running(c, q.room, q.timer)
      && Remaining(c, q.room) <= 3 * |Panel(s.room)| + 1
  {
    var s0 := s.(timer := None);
    var t := Tally(Moved(s0, RoomState.Elimination));
    TallyKeeps(c, s0);
    FinalizeUnfolds(c, s);
    if YesVoters(s.room) == {} {
      NobodyLeft(c, t);
    } else {
      EntersSessions(c, t);
      SubsetCount(YesVoters(s.room), Panel(s.room));
      assert Remaining(c, FinalizeVoting(s).room) == 3 * |YesVoters(s.room)| + 1;
    }
  }

  /** Finalizing is leaving VOTING, tallying, and moving on by the number of survivors. */
  lemma FinalizeUnfolds(c: Config, s: Slice)
    requires Countable(c, s.room)
    requires s.timer.None? || s.timer.value.kind.VotingTimer?
    ensures FinalizeVoting(s) ==
      Moved(Tally(Moved(s.(timer := None), RoomState.Elimination)), AfterElimination(YesVoters(s.room)))
  {
    hide Tally, Keepers, YesVoters, Roster, IsWalk, Tallied, Emptied, AnsweredUpTo, Ballots;
    TallyKeeps(c, s.(timer := None));
  }

  /** A room that has tallied its votes, with at least one survivor, and has not created its sessions yet. */
  ghost predicate Tallied(c: Config, r: Room) {
    && Roster(c, r) && r.sessions == [] && r.pairing.None?
    && 1 <= r.round <= c.rounds && AnsweredUpTo(r, c.rounds) && Ballots(r)
    && ActiveAudience(r) == YesVoters(r) != {}
    && Benched(r) && forall u | u in YesVoters(r) :: r.members[u].status.Active?
  }

  lemma SessionsBegin(c: Config, r: Room)
    requires Tallied(c, r)
    ensures var q := r.(sessions := NewSessions(Order(r), r.challenger));
      && Roster(c, q) && Panel(q) == Panel(r)
      && SessionsInv(c, q) && Current(q.sessions) == 0 < |q.sessions|
      && q.sessions[0].state.Active? && q.sessions[0].question.None? && q.sessions[0].sequence == 1
      && Work(q.sessions) == 3 * |YesVoters(r)|
  {
    var q := r.(sessions := NewSessions(Order(r), r.challenger));
    FreshSessions(Order(r), r.challenger);
    assert Panel(q) == Panel(r);
    assert YesVoters(q) == YesVoters(r);
    assert JoinTimes(q) == JoinTimes(r);
    forall i | 0 <= i < |q.sessions|
      ensures q.sessions[i].audience in q.members && SessionFits(q.sessions[i], q.members[q.sessions[i].audience])
    {
      assert Order(r)[i] in YesVoters(r);
    }
  }

  lemma CommitStaysTallied(c: Config, r: Room)
    requires Tallied(c, r)
    ensures var d := Committed(r, RoomState.OneOnOne);
      && Tallied(c, d) && YesVoters(d) == YesVoters(r) == ActiveAudience(d) && d.sessions == []
  {
    var d := Committed(r, RoomState.OneOnOne);
    assert ActiveAudience(d) == ActiveAudience(r);
    assert Panel(d) == Panel(r);
    assert YesVoters(d) == YesVoters(r);
    hide VoteOf, Distinct, ActiveAudience;
  }

  lemma EntersSessions(c: Config, t: Slice)
    requires Tallied(c, t.room) && t.room.state.Elimination? && t.timer.None?
    requires IsWalk(t.room.history, RoomState.Ready, RoomState.Elimination)
    ensures var q := Moved(t, RoomState.OneOnOne);
      && Running(c, q.room, q.timer)
      && Remaining(c, q.room) == 3 * |YesVoters(t.room)| + 1
  {
    hide Tallied, SessionsInv, Roster, IsWalk, NewSessions, Work, Current;
    var d := Committed(t.room, RoomState.OneOnOne);
    CommitStaysTallied(c, t.room);
    SessionsBegin(c, d);
    WalkExtends(t.room.history, RoomState.Ready, RoomState.Elimination, RoomState.OneOnOne);
    assert Moved(t, RoomState.OneOnOne).room == d.(sessions := NewSessions(Order(d), d.challenger));
  }

  /** Freshly created sessions: the first is active, the others are pending, and none has any content. */
  lemma FreshSessions(order: seq<UserId>, challenger: UserId)
    requires order != []
    ensures var xs := NewSessions(order, challenger);
      InSequence(xs, Current(xs)) && Current(xs) == 0 && Work(xs) == 3 * |order|
  {
    var xs := NewSessions(order, challenger);
    WorkOfFresh(xs);
    assert xs[0].state.Active?;
  }

  lemma SubmitVoteKeeps(c: Config, s: Slice, voter: UserId, choice: Choice)
    requires RoomInv(c, s.room, s.timer)
    ensures var reply := SubmitVote(s, voter, choice);
      KeepsRoom(c, s, reply) && (reply.Refused? ==> reply.next == s)
  {
    if VoteError(s.room, voter).None? {
      var s1 := CastVote(s, voter, choice);
      BallotAdded(c, s, voter, choice);
      VotePigeonhole(c, s1.room);
      assert ActiveAudience(s1.room) == Panel(s.room);
      if |s1.room.votes| >= |Panel(s.room)| {
        FinalizeKeeps(c, s1);
      } else {
        assert Panel(s1.room) == Panel(s.room);
      }
    }
  }

  lemma BallotAdded(c: Config, s: Slice, voter: UserId, choice: Choice)
    requires Countable(c, s.room) && VoteError(s.room, voter).None?
    ensures Countable(c, CastVote(s, voter, choice).room)
  {
    var r := s.room;
    var q := CastVote(s, voter, choice).room;
    VoteFound(r.votes, r.round, voter);
    assert Panel(q) == Panel(r);
  }

  lemma VotingTimeoutKeeps(c: Config, s: Slice)
    requires RoomInv(c, s.room, s.timer) && s.room.state.Voting?
    ensures var q := VotingTimeout(s.(timer := None), Some(s.room.round));
      Advances(c, s.room, q)
  {
    FinalizeKeeps(c, s.(timer := None));
  }
}
