/** Automatic runs: the world's events, and what every reachable world satisfies. */
module AutomaticRuns {
  import opened Domain
  import opened Ordering
  import opened RoomStates
  import opened Protocol
  import opened RoomInvariant
  import opened SessionSteps
  import opened Outcomes
  import opened Effects
  import opened Queue
  import opened Matchmaker
  import opened Contacts
  import opened World
  import opened Formation

  // ----- Events -----

  /**
   Player and timer steps, the two admin starts, registration, the queue endpoints (Join and Rejoin),
   the queue socket opening (Connect) and closing (Leave), contact submissions and the clock.
   */
  datatype Event =
    | Act(room: RoomId, action: Action)
    | Start(room: RoomId)
    | StartQuestioning(room: RoomId)
    | Join(user: UserId, gender: Gender)
    | Register(user: UserId, gender: Gender)
    | Rejoin(user: UserId)
    | Connect(user: UserId)
    | Leave(user: UserId)
    | GiveContact(room: RoomId, submission: Submission)
    | Tick(now: Time)

  /** The step made a match, so its caller looks for new rooms afterwards. */
  predicate MakesMatch(r: Room, q: Room) {
    r.pairing.None? && q.pairing.Some?
  }

  function Joined(w: World, u: UserId, g: Gender): World {
    w.(users := w.users[u := User(g, UserState.Queued, Some(w.now))])
  }

  /** A contact submission in the match room of a game room. */
  function Submitted(c: Config, w: World, r: RoomId, s: Submission): Slice
    requires r in w.rooms && w.rooms[r].pairing.Some?
  {
    var before := SliceOf(w, r);
    var outcome := Submit(c, Exchange(w.rooms[r].pairing.value, w.users), s);
    if outcome.Done? then before.(room := before.room.(pairing := Some(outcome.next.pairing)), users := outcome.next.users)
    else before
  }

  ghost function Acted(c: Config, w: World, r: RoomId, a: Action): World
    requires r in w.rooms
  {
    WithSlice(w, r, Step(c, SliceOf(w, r), a).next)
  }

  ghost function Started(w: World, r: RoomId, target: RoomState): World
    requires r in w.rooms
  {
    WithSlice(w, r, Transition(SliceOf(w, r), target).next)
  }

  /** The world an event reaches before its caller looks for new rooms; requests for rooms there are not change nothing. */
  ghost function Reached(c: Config, w: World, e: Event): World {
    match e
    case Act(r, a) => if r in w.rooms then Acted(c, w, r, a) else w
    case Start(r) => if r in w.rooms then Started(w, r, RoomState.Intro) else w
    case StartQuestioning(r) => if r in w.rooms then Started(w, r, RoomState.Questioning) else w
    case Join(u, g) => Joined(w, u, g)
    case Register(u, g) => w.(users := w.users[u := User(g, UserState.Waiting, None)])
    case Rejoin(u) =>
      if u in w.users && !w.users[u].state.Completed? then w.(users := Enqueued(w.users, u, w.now)) else w
    case Connect(u) =>
      if u in w.users && w.users[u].state.Waiting? then w.(users := Enqueued(w.users, u, w.now)) else w
    case Leave(u) => if u in w.users && w.users[u].state.Queued? then w.(users := Dequeued(w.users, u)) else w
    case GiveContact(r, s) =>
      if r in w.rooms && w.rooms[r].pairing.Some? then WithSlice(w, r, Submitted(c, w, r, s)) else w
    case Tick(t) => w.(now := t)
  }

  /** Events whose caller looks for new rooms. */
  ghost predicate Forming(c: Config, w: World, e: Event) {
    match e
    case Act(r, a) => r in w.rooms && MakesMatch(w.rooms[r], Acted(c, w, r, a).rooms[r])
    case Join(_, _) => true
    case Rejoin(u) => u in w.users && !w.users[u].state.Completed?
    case Connect(u) => u in w.users && !Engaged(w.users[u].state)
    case _ => false
  }

  /** User ids are handed out once, and time passes. */
  predicate Allowed(w: World, e: Event) {
    match e
    case Join(u, _) => u !in w.users
    case Register(u, _) => u !in w.users
    case Tick(t) => w.now <= t
    case _ => true
  }

  /**
   The rejoin endpoint checks only that the user exists and has not completed the event.  This is what
   it would also have to check: nobody rejoins the queue from a game or a match.
   */
  predicate Safe(w: World, e: Event) {
    e.Rejoin? && e.user in w.users ==> !w.users[e.user].state.InGame? && !w.users[e.user].state.Matched?
  }

  /** One event of an automatic run. */
  ghost predicate Next(c: Config, pool: map<QuestionId, Question>, w: World, e: Event, v: World)
    requires Sensible(c)
  {
    Allowed(w, e) && if Forming(c, w, e) then Forms(c, pool, Reached(c, w, e), v) else v == Reached(c, w, e)
  }

  // ----- Starting a room -----

  lemma StartKeeps(c: Config, s: Slice, target: RoomState)
    requires RoomInv(c, s.room, s.timer) && (target.Intro? || target.Questioning?)
    ensures var reply := Transition(s, target);
      && RoomInv(c, reply.next.room, reply.next.timer) && Quiet(s, reply.next)
      && (reply.Ok? ==> s.room.state == if target.Intro? then RoomState.Ready else RoomState.Intro)
      && (reply.Ok? && target.Questioning? ==>
            reply.next.room.state.Questioning? && Remaining(c, reply.next.room) == c.rounds + 4 * |Panel(s.room)| + 1)
      && (reply.Ok? && target.Intro? ==> reply.next.room.state.Intro?)
      && (reply.Refused? ==> reply.next == s)
  {
    hide RoomInv, Remaining, Panel;
    if IsValidTransition(s.room.state, target) {
      NoElimination(c, s.room, s.timer);
      StartsKeep(c, s, target);
    }
  }

  lemma NoElimination(c: Config, r: Room, timer: Option<Timer>)
    requires RoomInv(c, r, timer)
    ensures !r.state.Elimination? && !r.state.Waiting?
  {
  }

  lemma StartsKeep(c: Config, s: Slice, target: RoomState)
    requires RoomInv(c, s.room, s.timer)
    requires if target.Intro? then s.room.state.Ready? else target.Questioning? && s.room.state.Intro?
    ensures var t := Moved(s, target);
      && RoomInv(c, t.room, t.timer) && Quiet(s, t) && t.room.state == target
      && (target.Questioning? ==> Remaining(c, t.room) == c.rounds + 4 * |Panel(s.room)| + 1)
  {
    WalkExtends(s.room.history, RoomState.Ready, s.room.state, target);
    var t := Moved(s, target);
    assert Panel(t.room) == Panel(s.room);
    hide IsWalk, Panel;
  }

  lemma StartMovesOn(c: Config, w: World, r: RoomId, target: RoomState)
    requires Consistent(c, w) && r in w.rooms && (target.Intro? || target.Questioning?)
    ensures MovesOn(c, w, r, Transition(SliceOf(w, r), target).next)
  {
    hide Consistent, RoomInv, MovesOn, Transition, Effect, Remaining;
    var s := SliceOf(w, r);
    var t := Transition(s, target).next;
    RoomOf(c, w, r);
    StartKeeps(c, s, target);
    QuietEffect(s, t);
    if Transition(s, target).Ok? {
      AcceptedMovesOn(c, w, r, t);
    } else {
      RefusedMovesOn(c, w, r, t);
    }
  }

  lemma RoomOf(c: Config, w: World, r: RoomId)
    requires Consistent(c, w) && r in w.rooms
    ensures RoomInv(c, w.rooms[r], TimerOf(w, r)) && w.rooms[r].members.Keys <= w.users.Keys && r < w.nextRoom
    ensures w.rooms[r].pairing.Some? ==> ExchangeInv(w.rooms[r].pairing.value)
  {
    hide RoomInv, ExchangeInv;
    assert RoomFits(c, w, r);
  }

  // ----- Queue events -----

  /** Changing somebody who is in no game, to somebody who is in none either. */
  lemma BystanderConsistent(c: Config, w: World, u: UserId, x: User)
    requires Consistent(c, w) && (u in w.users ==> !Engaged(w.users[u].state))
    requires !Engaged(x.state) && (x.state.Queued? <==> x.queuedAt.Some?)
    ensures Consistent(c, w.(users := w.users[u := x]))
  {
    hide RoomInv, ExchangeInv, SeatState, Open;
    var v := w.(users := w.users[u := x]);
    forall r | r in v.rooms ensures RoomFits(c, v, r) {
      assert RoomFits(c, w, r);
    }
    forall z | z in v.users ensures UserFits(v, z) {
      BystanderFits(c, w, u, x, z);
    }
    forall r, z | r in v.rooms && z in v.users && Open(v.rooms[r], z) ensures SeatState(v.rooms[r], v.users[z].state) {
      BystanderSeat(c, w, u, r, z);
    }
    hide RoomFits, UserFits;
  }

  lemma BystanderFits(c: Config, w: World, u: UserId, x: User, z: UserId)
    requires Consistent(c, w) && !Engaged(x.state) && (x.state.Queued? <==> x.queuedAt.Some?)
    requires z == u || z in w.users
    ensures UserFits(w.(users := w.users[u := x]), z)
  {
    hide RoomFits, SeatState, Open;
    var v := w.(users := w.users[u := x]);
    if z != u {
      assert UserFits(w, z);
      if Engaged(v.users[z].state) {
        var r :| r in w.rooms && Open(w.rooms[r], z);
        assert r in v.rooms && Open(v.rooms[r], z);
      }
    }
  }

  /** Whoever is in no game has no open row. */
  lemma BystanderSeat(c: Config, w: World, u: UserId, r: RoomId, z: UserId)
    requires Consistent(c, w) && (u in w.users ==> !Engaged(w.users[u].state))
    requires r in w.rooms && Open(w.rooms[r], z)
    ensures z != u && z in w.users && SeatState(w.rooms[r], w.users[z].state)
  {
    RoomOf(c, w, r);
    hide RoomInv, RoomFits, UserFits;
  }

  /**
   add refuses only users who completed the event.  For everybody else it keeps the world consistent
   exactly when the user is neither in a game nor matched: a caller has to check that.
   */
  lemma AddIsSafeExactlyOutsideGames(c: Config, w: World, u: UserId)
    requires Consistent(c, w) && u in w.users && !w.users[u].state.Completed?
    ensures Consistent(c, w.(users := Enqueued(w.users, u, w.now)))
      <==> !w.users[u].state.InGame? && !w.users[u].state.Matched?
  {
    hide RoomFits, SeatState, Open;
    var v := w.(users := Enqueued(w.users, u, w.now));
    if Engaged(w.users[u].state) {
      assert UserFits(w, u);
      var r :| r in w.rooms && Open(w.rooms[r], u);
      SeatOfQueued(v, r, u);
    } else {
      BystanderConsistent(c, w, u, v.users[u]);
    }
  }

  lemma SeatOfQueued(w: World, r: RoomId, u: UserId)
    requires r in w.rooms && u in w.users && Open(w.rooms[r], u) && w.users[u].state.Queued?
    ensures !SeatState(w.rooms[r], w.users[u].state)
  {
  }

  // ----- Contact submissions -----

  lemma OverInvParts(c: Config, r: Room, timer: Option<Timer>)
    requires RoomInv(c, r, timer) && r.state.Completed?
    ensures Roster(c, r) && OverInv(c, r)
  {
    hide Roster, IsWalk, OverInv;
  }

  lemma OverRowOf(c: Config, r: Room, u: UserId)
    requires Roster(c, r) && OverInv(c, r) && r.pairing.Some? && u in r.members
    ensures (Open(r, u) <==> IsParty(r.pairing.value, u)) && (IsParty(r.pairing.value, u) <==> r.members[u].status.Selected?)
  {
    hide Concluded, Distinct, Panel, AnsweredUpTo;
  }

  /** In a matched room the two parties hold the open rows, and they are selected. */
  lemma MatchedRoomSeats(c: Config, r: Room, timer: Option<Timer>, u: UserId)
    requires RoomInv(c, r, timer) && r.pairing.Some? && u in r.members
    ensures r.state.Completed? && (Open(r, u) <==> IsParty(r.pairing.value, u))
    ensures IsParty(r.pairing.value, u) <==> r.members[u].status.Selected?
  {
    hide Roster, IsWalk, OverInv;
    PartiesDiffer(c, r, timer);
    OverInvParts(c, r, timer);
    OverRowOf(c, r, u);
  }

  lemma OverParties(c: Config, r: Room)
    requires Roster(c, r) && OverInv(c, r) && r.pairing.Some?
    ensures r.pairing.value.challenger in r.members && r.pairing.value.audience in r.members
  {
    hide Concluded, Distinct, AnsweredUpTo;
  }

  lemma PartiesAreMembers(c: Config, r: Room, timer: Option<Timer>)
    requires RoomInv(c, r, timer) && r.pairing.Some?
    ensures r.pairing.value.challenger in r.members && r.pairing.value.audience in r.members
  {
    hide Roster, IsWalk, OverInv;
    PartiesDiffer(c, r, timer);
    OverInvParts(c, r, timer);
    OverParties(c, r);
  }

  lemma PairingReplacedOver(c: Config, r: Room, p: Pairing)
    requires Roster(c, r) && OverInv(c, r) && r.pairing.Some?
    requires p.challenger == r.pairing.value.challenger && p.audience == r.pairing.value.audience
    ensures Roster(c, r.(pairing := Some(p))) && OverInv(c, r.(pairing := Some(p)))
  {
    hide Concluded, Distinct;
    var q := r.(pairing := Some(p));
    StaysConcluded(r, q);
    assert Panel(q) == Panel(r);
    hide Panel;
  }

  /** A completed room only changes its match row: the rest of the invariant is untouched. */
  lemma PairingReplaced(c: Config, r: Room, timer: Option<Timer>, p: Pairing)
    requires RoomInv(c, r, timer) && r.pairing.Some?
    requires p.challenger == r.pairing.value.challenger && p.audience == r.pairing.value.audience
    ensures RoomInv(c, r.(pairing := Some(p)), timer)
  {
    hide Roster, IsWalk, OverInv;
    PartiesDiffer(c, r, timer);
    OverInvParts(c, r, timer);
    PairingReplacedOver(c, r, p);
  }

  /** An accepted contact completes the match together with both users, or changes nobody. */
  lemma SubmissionOnUser(c: Config, e: Exchange, s: Submission, u: UserId)
    requires ExchangeInv(e.pairing) && u in e.users && Submit(c, e, s).Done?
    ensures var n := Submit(c, e, s).next;
      && n.pairing.challenger == e.pairing.challenger && n.pairing.audience == e.pairing.audience
      && ExchangeInv(n.pairing) && !e.pairing.status.Completed? && n.users.Keys == e.users.Keys
      && n.users[u] == if n.pairing.status.Completed? && IsParty(e.pairing, u)
                       then e.users[u].(state := UserState.Completed) else e.users[u]
  {
    SubmitKeeps(c, e, s);
    hide IsValid, CleanContact, ContactOf;
  }

  lemma ContactOnUser(c: Config, w: World, r: RoomId, s: Submission, u: UserId)
    requires Consistent(c, w) && r in w.rooms && w.rooms[r].pairing.Some? && u in w.users
    requires Submit(c, Exchange(w.rooms[r].pairing.value, w.users), s).Done?
    ensures var t := Submitted(c, w, r, s);
      && MovedAlong(w.rooms[r], t.room, w.users[u], t.users[u], u)
      && (Open(t.room, u) ==> SeatState(t.room, t.users[u].state))
  {
    hide Consistent, RoomInv, Submit, ExchangeInv, IsParty;
    RoomOf(c, w, r);
    SubmissionOnUser(c, Exchange(w.rooms[r].pairing.value, w.users), s, u);
    PartiesAreMembers(c, w.rooms[r], TimerOf(w, r));
    MatchedRoomSeat(c, w, r, u);
  }

  /** Anybody's place in a matched room whose contacts are still awaited. */
  lemma MatchedRoomSeat(c: Config, w: World, r: RoomId, u: UserId)
    requires Consistent(c, w) && r in w.rooms && w.rooms[r].pairing.Some? && u in w.users
    ensures var room := w.rooms[r];
      && room.state.Completed? && (Open(room, u) <==> IsParty(room.pairing.value, u))
      && (Open(room, u) && !room.pairing.value.status.Completed? ==> w.users[u].state.Matched?)
  {
    hide RoomInv, RoomFits, UserFits, IsParty;
    RoomOf(c, w, r);
    PartiesAreMembers(c, w.rooms[r], TimerOf(w, r));
    if u in w.rooms[r].members {
      MatchedRoomSeats(c, w.rooms[r], TimerOf(w, r), u);
    } else {
      PartiesDiffer(c, w.rooms[r], TimerOf(w, r));
      NotParty(w.rooms[r], u);
    }
  }

  lemma NotParty(r: Room, u: UserId)
    requires r.pairing.Some? && r.pairing.value.challenger in r.members && r.pairing.value.audience in r.members
    requires u !in r.members
    ensures !IsParty(r.pairing.value, u)
  {
  }

  lemma ContactMovesOn(c: Config, w: World, r: RoomId, s: Submission)
    requires Consistent(c, w) && r in w.rooms && w.rooms[r].pairing.Some?
    ensures MovesOn(c, w, r, Submitted(c, w, r, s))
  {
    hide Consistent, RoomInv, Submit, ExchangeInv, Open, SeatState, MovedAlong;
    RoomOf(c, w, r);
    var e := Exchange(w.rooms[r].pairing.value, w.users);
    var t := Submitted(c, w, r, s);
    if Submit(c, e, s).Done? {
      SubmissionKeepsUsers(c, e, s);
      PairingReplaced(c, w.rooms[r], TimerOf(w, r), t.room.pairing.value);
      forall u | u in w.users ensures MovedAlong(w.rooms[r], t.room, w.users[u], t.users[u], u) {
        ContactOnUser(c, w, r, s, u);
      }
      forall u | u in t.users && Open(t.room, u) ensures SeatState(t.room, t.users[u].state) {
        ContactOnUser(c, w, r, s, u);
      }
    } else {
      RefusedMovesOn(c, w, r, t);
    }
  }

  lemma SubmissionKeepsUsers(c: Config, e: Exchange, s: Submission)
    requires ExchangeInv(e.pairing) && Submit(c, e, s).Done?
    ensures var n := Submit(c, e, s).next;
      && n.pairing.challenger == e.pairing.challenger && n.pairing.audience == e.pairing.audience
      && ExchangeInv(n.pairing) && n.users.Keys == e.users.Keys
  {
    SubmitKeeps(c, e, s);
    hide IsValid, CleanContact, ContactOf, ExchangeInv;
  }

  // ----- Every event, and every run -----

  lemma ReachedConsistent(c: Config, w: World, e: Event)
    requires Consistent(c, w) && Allowed(w, e) && Safe(w, e)
    ensures Consistent(c, Reached(c, w, e))
  {
    hide Consistent, MovesOn, Step, Transition, Submitted;
    match e
    case Act(r, a) =>
      if r in w.rooms {
        StepMovesOn(c, w, r, a);
        RoomStepConsistent(c, w, r, Step(c, SliceOf(w, r), a).next);
      }
    case Start(r) =>
      if r in w.rooms {
        StartMovesOn(c, w, r, RoomState.Intro);
        RoomStepConsistent(c, w, r, Transition(SliceOf(w, r), RoomState.Intro).next);
      }
    case StartQuestioning(r) =>
      if r in w.rooms {
        StartMovesOn(c, w, r, RoomState.Questioning);
        RoomStepConsistent(c, w, r, Transition(SliceOf(w, r), RoomState.Questioning).next);
      }
    case Join(u, g) => BystanderConsistent(c, w, u, User(g, UserState.Queued, Some(w.now)));
    case Register(u, g) => BystanderConsistent(c, w, u, User(g, UserState.Waiting, None));
    case Rejoin(u) =>
      if u in w.users && !w.users[u].state.Completed? {
        BystanderConsistent(c, w, u, Enqueued(w.users, u, w.now)[u]);
      }
    case Connect(u) =>
      if u in w.users && w.users[u].state.Waiting? {
        BystanderConsistent(c, w, u, Enqueued(w.users, u, w.now)[u]);
      }
    case Leave(u) =>
      if u in w.users && w.users[u].state.Queued? {
        BystanderConsistent(c, w, u, Dequeued(w.users, u)[u]);
      }
    case GiveContact(r, s) =>
      if r in w.rooms && w.rooms[r].pairing.Some? {
        ContactMovesOn(c, w, r, s);
        RoomStepConsistent(c, w, r, Submitted(c, w, r, s));
      }
    case Tick(t) => TickConsistent(c, w, t);
  }

  lemma TickConsistent(c: Config, w: World, t: Time)
    requires Consistent(c, w)
    ensures Consistent(c, w.(now := t))
  {
    hide RoomInv, ExchangeInv, SeatState, Open;
    var v := w.(now := t);
    forall r | r in v.rooms ensures RoomFits(c, v, r) {
      assert RoomFits(c, w, r);
    }
    forall u | u in v.users ensures UserFits(v, u) {
      assert UserFits(w, u);
      if Engaged(w.users[u].state) {
        var r :| r in w.rooms && Open(w.rooms[r], u);
        assert r in v.rooms && Open(v.rooms[r], u);
      }
    }
    hide RoomFits, UserFits;
  }

  lemma JoinKeepsRoom(c: Config, w: World, v: World, ps: seq<Plan>, r: RoomId)
    requires RoomsJoin(c, w, v, ps) && r in w.rooms
    ensures r in v.rooms && v.rooms[r] == w.rooms[r]
  {
    hide Opens, Apart, AllIn;
  }

  lemma NewSeat(c: Config, w: World, v: World, ps: seq<Plan>, u: UserId) returns (q: RoomId)
    requires RoomsJoin(c, w, v, ps) && u in AllIn(ps)
    ensures q >= w.nextRoom && q in v.rooms && Open(v.rooms[q], u)
  {
    hide RoomInv, Apart;
    InSome(ps, u);
    var i :| 0 <= i < |ps| && u in Everyone(ps[i]);
    q := w.nextRoom + i;
    assert Opens(c, v.rooms[w.nextRoom + i], ps[i]);
    hide Everyone;
  }

  lemma LeftInQueue(c: Config, w: World, v: World, ps: seq<Plan>, u: UserId)
    requires RoomsJoin(c, w, v, ps) && u !in AllIn(ps) && u in w.users
    ensures u in v.users && v.users[u] == w.users[u]
  {
    hide Opens, Apart, AllIn;
  }

  /** A user who rejoins from a seat keeps that seat, whatever the formation pass makes of them. */
  lemma SeatRemains(c: Config, pool: map<QuestionId, Question>, w: World, u: UserId, v: World, r: RoomId)
    requires Sensible(c) && Consistent(c, w) && u in w.users && r in w.rooms && Open(w.rooms[r], u)
    requires Forms(c, pool, w.(users := Enqueued(w.users, u, w.now)), v)
    ensures !Consistent(c, v)
  {
    hide Consistent, Forms, RoomsJoin, SeatState, Open, Pass, AllIn;
    var m := w.(users := Enqueued(w.users, u, w.now));
    var ps := Pass(c, pool, m.users);
    FormsJoins(c, pool, m, v);
    RoomOf(c, w, r);
    JoinKeepsRoom(c, m, v, ps, r);
    if u in AllIn(ps) {
      var q := NewSeat(c, m, v, ps, u);
      TwoSeats(c, v, r, q, u);
    } else {
      LeftInQueue(c, m, v, ps, u);
      SeatOfQueued(v, r, u);
      SeatMustTell(c, v, r, u);
    }
  }

  lemma TwoSeats(c: Config, w: World, r: RoomId, q: RoomId, u: UserId)
    requires r in w.rooms && q in w.rooms && r != q && Open(w.rooms[r], u) && Open(w.rooms[q], u)
    ensures !Consistent(c, w)
  {
  }

  lemma SeatMustTell(c: Config, w: World, r: RoomId, u: UserId)
    requires r in w.rooms && u in w.users && Open(w.rooms[r], u) && !SeatState(w.rooms[r], w.users[u].state)
    ensures !Consistent(c, w)
  {
  }

  lemma UnsafeBreaks(c: Config, pool: map<QuestionId, Question>, w: World, e: Event, v: World)
    requires Sensible(c) && Consistent(c, w) && Next(c, pool, w, e, v) && !Safe(w, e)
    ensures !Consistent(c, v)
  {
    hide RoomFits, SeatState, Open, Forms;
    assert UserFits(w, e.user);
    var r :| r in w.rooms && Open(w.rooms[r], e.user);
    hide Consistent;
    SeatRemains(c, pool, w, e.user, v, r);
  }

  /**
   Every event keeps the world consistent, with one exception: after a rejoin by somebody who is in a
   game or matched it is not consistent, and that is the only event after which it is not.
   */
  lemma NextConsistent(c: Config, pool: map<QuestionId, Question>, w: World, e: Event, v: World)
    requires Sensible(c) && Consistent(c, w) && Next(c, pool, w, e, v)
    ensures Consistent(c, v) <==> Safe(w, e)
  {
    if Safe(w, e) {
      hide Consistent, Forms, Reached, Forming, Allowed, Safe;
      ReachedConsistent(c, w, e);
      if Forming(c, w, e) {
        FormationConsistent(c, pool, Reached(c, w, e), v);
      }
    } else {
      hide Consistent, Next;
      UnsafeBreaks(c, pool, w, e, v);
    }
  }

  /** The worlds of a run, each reached from the one before by an event. */
  ghost predicate IsRun(c: Config, pool: map<QuestionId, Question>, ws: seq<World>, es: seq<Event>)
    requires Sensible(c)
  {
    |ws| == |es| + 1 && forall i | 0 <= i < |es| :: Next(c, pool, ws[i], es[i], ws[i + 1])
  }

  /** Before the event starts nobody is in a game, and there is no room. */
  ghost predicate IsStart(w: World) {
    && w.rooms == map[] && w.timers == map[]
    && forall u | u in w.users :: !Engaged(w.users[u].state) && (w.users[u].state.Queued? <==> w.users[u].queuedAt.Some?)
  }

  lemma {:induction false} ConsistentUntilUnsafe(c: Config, pool: map<QuestionId, Question>, ws: seq<World>, es: seq<Event>, i: nat)
    requires Sensible(c) && IsRun(c, pool, ws, es) && IsStart(ws[0]) && i <= |es|
    requires forall j | 0 <= j < i :: Safe(ws[j], es[j])
    ensures Consistent(c, ws[i])
  {
    hide Next, Safe;
    if i > 0 {
      ConsistentUntilUnsafe(c, pool, ws, es, i - 1);
      hide Consistent, IsStart;
      NextConsistent(c, pool, ws[i - 1], es[i - 1], ws[i]);
    }
  }

  /** All worlds of a run are consistent exactly when nobody in it rejoins the queue from a game or a match. */
  lemma RunConsistent(c: Config, pool: map<QuestionId, Question>, ws: seq<World>, es: seq<Event>)
    requires Sensible(c) && IsRun(c, pool, ws, es) && IsStart(ws[0])
    ensures (forall i | 0 <= i <= |es| :: Consistent(c, ws[i])) <==> (forall i | 0 <= i < |es| :: Safe(ws[i], es[i]))
  {
    hide Next, Safe, Consistent, IsStart;
    if forall i | 0 <= i < |es| :: Safe(ws[i], es[i]) {
      forall i | 0 <= i <= |es| ensures Consistent(c, ws[i]) {
        ConsistentUntilUnsafe(c, pool, ws, es, i);
      }
    }
    if forall i | 0 <= i <= |es| :: Consistent(c, ws[i]) {
      forall i | 0 <= i < |es| ensures Safe(ws[i], es[i]) {
        assert Consistent(c, ws[i + 1]);
        NextConsistent(c, pool, ws[i], es[i], ws[i + 1]);
      }
    }
  }

  // ----- What consistency says about a user -----

  predicate InRunningRoom(r: Room, u: UserId) {
    Open(r, u) && !r.state.Completed?
  }

  predicate IsSelected(r: Room, u: UserId) {
    u in r.members && r.members[u].status.Selected?
  }

  predicate IsReleased(r: Room, u: UserId) {
    IsSelected(r, u) && r.pairing.Some? && r.pairing.value.status.Completed?
  }

  ghost predicate Somewhere(w: World, holds: (Room, UserId) -> bool, u: UserId) {
    exists r :: r in w.rooms && holds(w.rooms[r], u)
  }

  /** An open row is one of a running room or a selected one of a matched room. */
  lemma SeatKinds(c: Config, w: World, r: RoomId, u: UserId)
    requires Consistent(c, w) && r in w.rooms && u in w.users
    ensures var room := w.rooms[r]; var state := w.users[u].state;
      && (Open(room, u) <==> InRunningRoom(room, u) || IsSelected(room, u))
      && (InRunningRoom(room, u) ==> state.InGame?)
      && (IsSelected(room, u) ==> (if IsReleased(room, u) then state.Completed? else state.Matched?))
  {
    hide RoomInv, RoomFits, UserFits, ExchangeInv;
    RoomOf(c, w, r);
    if Open(w.rooms[r], u) {
      SelectedOnlyAtTheEnd(c, w.rooms[r], TimerOf(w, r), u);
    } else if IsSelected(w.rooms[r], u) {
      SelectedIsOpen(c, w.rooms[r], TimerOf(w, r), u);
    }
  }

  lemma SelectedIsOpen(c: Config, r: Room, timer: Option<Timer>, u: UserId)
    requires RoomInv(c, r, timer) && IsSelected(r, u)
    ensures Open(r, u)
  {
    hide IsWalk, PhaseInv;
    assert Roster(c, r);
  }

  /**
   In a consistent world a user is IN_GAME exactly when they have an open row in a room that is not
   over, MATCHED or COMPLETED exactly when they hold a selected row, and COMPLETED exactly when that
   match has both contacts.
   */
  lemma StatesAreSeats(c: Config, w: World, u: UserId)
    requires Consistent(c, w) && u in w.users
    ensures forall r, q | r in w.rooms && q in w.rooms && Open(w.rooms[r], u) && Open(w.rooms[q], u) :: r == q
    ensures w.users[u].state.InGame? <==> Somewhere(w, InRunningRoom, u)
    ensures w.users[u].state.Matched? || w.users[u].state.Completed? <==> Somewhere(w, IsSelected, u)
    ensures w.users[u].state.Completed? <==> Somewhere(w, IsReleased, u)
    ensures w.users[u].state.Queued? <==> w.users[u].queuedAt.Some?
  {
    hide RoomFits, SeatState, Open, InRunningRoom, IsSelected;
    assert UserFits(w, u);
    forall r | r in w.rooms ensures r in w.rooms
      && (Open(w.rooms[r], u) <==> InRunningRoom(w.rooms[r], u) || IsSelected(w.rooms[r], u))
      && (InRunningRoom(w.rooms[r], u) ==> w.users[u].state.InGame?)
      && (IsSelected(w.rooms[r], u) ==>
            if IsReleased(w.rooms[r], u) then w.users[u].state.Completed? else w.users[u].state.Matched?)
    {
      SeatKinds(c, w, r, u);
    }
    hide Consistent;
  }

  /** The selected rows of a room are those of the two people it matched; a row is closed exactly when eliminated. */
  lemma RowsOfARoom(c: Config, w: World, r: RoomId, u: UserId)
    requires Consistent(c, w) && r in w.rooms && u in w.rooms[r].members
    ensures var room := w.rooms[r];
      && (room.members[u].leftAt.Some? <==> room.members[u].status.Eliminated?)
      && (IsSelected(room, u) <==> room.pairing.Some? && IsParty(room.pairing.value, u))
  {
    RoomOf(c, w, r);
    var room := w.rooms[r];
    hide Consistent;
    if room.pairing.Some? {
      MatchedRoomSeats(c, room, TimerOf(w, r), u);
    } else if IsSelected(room, u) {
      SelectedIsOpen(c, room, TimerOf(w, r), u);
      SelectedOnlyAtTheEnd(c, room, TimerOf(w, r), u);
    }
    hide PhaseInv, IsWalk;
    assert Roster(c, room);
  }

  /** In a consistent world every session's columns are in order, and every room that is over ended as its votes say. */
  lemma RoomsEndAsVoted(c: Config, w: World, r: RoomId)
    requires Consistent(c, w) && r in w.rooms
    ensures var room := w.rooms[r]; var yes := SaidYes(room.sessions);
      && (forall i | 0 <= i < |room.sessions| :: Columns(room.sessions[i]))
      && (room.state.Completed? ==>
            && yes <= YesVoters(room) && |room.sessions| == |YesVoters(room)|
            && (room.pairing.Some? <==> yes != {})
            && (room.pairing.Some? ==> room.pairing.value.audience in yes))
  {
    hide Consistent, RoomInv, Columns, SaidYes, YesVoters, PanelEnded;
    RoomOf(c, w, r);
    forall i | 0 <= i < |w.rooms[r].sessions| ensures Columns(w.rooms[r].sessions[i]) {
      ColumnsInOrder(c, w.rooms[r], TimerOf(w, r), i);
    }
    if w.rooms[r].state.Completed? {
      EndFollowsVotes(c, w.rooms[r], TimerOf(w, r));
    }
  }
}
