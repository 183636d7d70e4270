/** All rooms together with the users and timers they share: automatic runs and what they keep consistent. */
module World {
  import opened Domain
  import opened Ordering
  import opened RoomStates
  import opened Protocol
  import opened RoomInvariant
  import opened SessionSteps
  import opened RoomRuns
  import opened Effects
  import opened Contacts

  datatype World = World(
    users: map<UserId, User>,
    rooms: map<RoomId, Room>,
    timers: map<RoomId, Timer>,
    nextRoom: RoomId,
    now: Time)

  function TimerOf(w: World, r: RoomId): Option<Timer> {
    if r in w.timers then Some(w.timers[r]) else None
  }

  function SliceOf(w: World, r: RoomId): Slice
    requires r in w.rooms
  {
    Slice(w.rooms[r], TimerOf(w, r), w.users, w.now)
  }

  function WithSlice(w: World, r: RoomId, s: Slice): World {
    w.(users := s.users,
       rooms := w.rooms[r := s.room],
       timers := if s.timer.Some? then w.timers[r := s.timer.value] else w.timers - {r})
  }

  // ----- Consistency -----

  /** What an open row says about its user. */
  predicate SeatState(r: Room, state: UserState) {
    if !r.state.Completed? then state.InGame?
    else if r.pairing.Some? && r.pairing.value.status.Completed? then state.Completed?
    else state.Matched?
  }

  predicate Engaged(state: UserState) {
    state.InGame? || state.Matched? || state.Completed?
  }

  ghost predicate Seated(w: World, u: UserId) {
    exists r :: r in w.rooms && Open(w.rooms[r], u)
  }

  ghost predicate SoundRoom(c: Config, w: World, r: RoomId)
    requires r in w.rooms
  {
    RoomInv(c, w.rooms[r], TimerOf(w, r)) && r < w.nextRoom
  }

  /** Every room keeps its invariant, whatever the users table says. */
  ghost predicate SoundRooms(c: Config, w: World) {
    w.timers.Keys <= w.rooms.Keys && forall r | r in w.rooms :: SoundRoom(c, w, r)
  }

  ghost predicate RoomFits(c: Config, w: World, r: RoomId)
    requires r in w.rooms
  {
    && SoundRoom(c, w, r)
    && w.rooms[r].members.Keys <= w.users.Keys
    && (w.rooms[r].pairing.Some? ==> ExchangeInv(w.rooms[r].pairing.value))
  }

  ghost predicate UserFits(w: World, u: UserId)
    requires u in w.users
  {
    && (w.users[u].state.Queued? <==> w.users[u].queuedAt.Some?)
    && (Engaged(w.users[u].state) ==> Seated(w, u))
  }

  /**
   Every room keeps its invariant, an open row fixes its user's state, nobody has two open rows,
   everybody engaged has one, and the queue timestamp is set exactly on the queued.
   */
  ghost predicate Consistent(c: Config, w: World) {
    && w.timers.Keys <= w.rooms.Keys
    && (forall r | r in w.rooms :: RoomFits(c, w, r))
    && (forall u | u in w.users :: UserFits(w, u))
    && (forall r, u | r in w.rooms && u in w.users && Open(w.rooms[r], u) :: SeatState(w.rooms[r], w.users[u].state))
    && (forall r, q, u | r in w.rooms && q in w.rooms && Open(w.rooms[r], u) && Open(w.rooms[q], u) :: r == q)
  }

  // ----- A step of one room -----

  /** What an effect does to one user. */
  ghost predicate MovedAlong(r: Room, q: Room, before: User, after: User, u: UserId) {
    && (Open(q, u) ==> Open(r, u))
    && after.queuedAt == before.queuedAt && after.gender == before.gender
    && (!Open(r, u) ==> after == before)
    && (Open(r, u) && !Open(q, u) ==> after.state.Waiting?)
  }

  lemma EffectOnUser(s: Slice, t: Slice, u: UserId)
    requires Effect(s, t) && u in s.users
    ensures t.users.Keys == s.users.Keys && MovedAlong(s.room, t.room, s.users[u], t.users[u], u)
    ensures Open(t.room, u) ==>
      t.users[u].state == if t.room.members[u].status.Selected? && !s.room.members[u].status.Selected?
                          then UserState.Matched else s.users[u].state
  {
  }

  /** A room that moved on from a consistent world, with its rows and users in step. */
  ghost predicate MovesOn(c: Config, w: World, r: RoomId, t: Slice) {
    && r in w.rooms && t.users.Keys == w.users.Keys
    && RoomInv(c, t.room, t.timer) && t.room.members.Keys == w.rooms[r].members.Keys
    && (t.room.pairing.Some? ==> ExchangeInv(t.room.pairing.value))
    && (forall u | u in w.users :: MovedAlong(w.rooms[r], t.room, w.users[u], t.users[u], u))
    && (forall u | u in t.users && Open(t.room, u) :: SeatState(t.room, t.users[u].state))
  }

  lemma RoomsStillFit(c: Config, w: World, r: RoomId, t: Slice)
    requires Consistent(c, w) && MovesOn(c, w, r, t)
    ensures var v := WithSlice(w, r, t);
      v.timers.Keys <= v.rooms.Keys && forall q | q in v.rooms :: RoomFits(c, v, q)
  {
    var v := WithSlice(w, r, t);
    hide RoomInv, ExchangeInv, MovedAlong, SeatState, UserFits, Open;
    forall q | q in v.rooms ensures RoomFits(c, v, q) {
      assert RoomFits(c, w, q);
    }
  }

  lemma SeatsStillUnique(c: Config, w: World, r: RoomId, t: Slice)
    requires Consistent(c, w) && MovesOn(c, w, r, t)
    ensures var v := WithSlice(w, r, t);
      forall p, q, u | p in v.rooms && q in v.rooms && Open(v.rooms[p], u) && Open(v.rooms[q], u) :: p == q
  {
    var v := WithSlice(w, r, t);
    hide RoomInv, ExchangeInv, SeatState, UserFits;
    forall p, u | p in v.rooms && Open(v.rooms[p], u) ensures p in w.rooms && Open(w.rooms[p], u) {
      if p == r {
        SeatOfMember(c, w, r, t, u);
      }
    }
  }

  lemma SeatOfMember(c: Config, w: World, r: RoomId, t: Slice, u: UserId)
    requires Consistent(c, w) && MovesOn(c, w, r, t) && Open(t.room, u)
    ensures u in w.users && Open(w.rooms[r], u)
  {
    hide RoomInv, ExchangeInv, SeatState, UserFits;
    assert RoomFits(c, w, r);
    assert u in w.rooms[r].members;
  }

  lemma SeatsStillTell(c: Config, w: World, r: RoomId, t: Slice)
    requires Consistent(c, w) && MovesOn(c, w, r, t)
    ensures var v := WithSlice(w, r, t);
      forall q, u | q in v.rooms && u in v.users && Open(v.rooms[q], u) :: SeatState(v.rooms[q], v.users[u].state)
  {
    var v := WithSlice(w, r, t);
    hide RoomInv, ExchangeInv, SeatState, UserFits, RoomFits;
    forall q, u | q in v.rooms && u in v.users && Open(v.rooms[q], u) ensures SeatState(v.rooms[q], v.users[u].state) {
      if q != r {
        assert Open(w.rooms[q], u) && !Open(w.rooms[r], u);
        assert MovedAlong(w.rooms[r], t.room, w.users[u], t.users[u], u);
      }
    }
  }

  lemma UsersStillFit(c: Config, w: World, r: RoomId, t: Slice)
    requires Consistent(c, w) && MovesOn(c, w, r, t)
    ensures var v := WithSlice(w, r, t); forall u | u in v.users :: UserFits(v, u)
  {
    var v := WithSlice(w, r, t);
    hide RoomInv, ExchangeInv, RoomFits;
    forall u | u in v.users ensures UserFits(v, u) {
      UserStillFits(c, w, r, t, u);
    }
  }

  lemma UserStillFits(c: Config, w: World, r: RoomId, t: Slice, u: UserId)
    requires Consistent(c, w) && MovesOn(c, w, r, t) && u in w.users
    ensures UserFits(WithSlice(w, r, t), u)
  {
    var v := WithSlice(w, r, t);
    hide RoomInv, ExchangeInv, RoomFits;
    assert UserFits(w, u) && MovedAlong(w.rooms[r], t.room, w.users[u], t.users[u], u);
    if Open(w.rooms[r], u) {
      assert SeatState(w.rooms[r], w.users[u].state);
      if Open(t.room, u) {
        assert r in v.rooms && Open(v.rooms[r], u);
        assert SeatState(t.room, t.users[u].state);
      }
    } else if Engaged(w.users[u].state) {
      var q :| q in w.rooms && Open(w.rooms[q], u);
      assert q in v.rooms && Open(v.rooms[q], u);
    }
  }

  lemma RoomStepConsistent(c: Config, w: World, r: RoomId, t: Slice)
    requires Consistent(c, w) && MovesOn(c, w, r, t)
    ensures Consistent(c, WithSlice(w, r, t))
  {
    RoomsStillFit(c, w, r, t);
    SeatsStillUnique(c, w, r, t);
    SeatsStillTell(c, w, r, t);
    UsersStillFit(c, w, r, t);
    hide MovesOn, RoomFits, UserFits, SeatState, Open;
  }

  /** Only a completed room has selected participants, and then its open rows are exactly those. */
  lemma SelectedOnlyAtTheEnd(c: Config, r: Room, timer: Option<Timer>, u: UserId)
    requires RoomInv(c, r, timer) && Open(r, u)
    ensures r.members[u].status.Selected? <==> r.state.Completed?
    ensures r.state.Completed? ==> r.pairing.Some? && IsParty(r.pairing.value, u)
    ensures !r.state.Completed? ==> r.pairing.None?
  {
    if r.state.OneOnOne? || r.state.FinalSelection? {
      SessionStatuses(c, r, u);
    }
    hide IsWalk, AnsweredUpTo, Ballots, SessionRoll, SessionFits, Listing;
  }

  lemma SessionStatuses(c: Config, r: Room, u: UserId)
    requires Roster(c, r) && SessionsInv(c, r) && u in r.members
    ensures !r.members[u].status.Selected?
  {
    if u != r.challenger && u in YesVoters(r) {
      RollIsBijection(r);
      EachSessionFits(c, r);
      hide SessionsInv, YesVoters, SessionRoll;
    }
  }

  /** A step of a room in a consistent world. */
  lemma StepMovesOn(c: Config, w: World, r: RoomId, a: Action)
    requires Consistent(c, w) && r in w.rooms
    ensures MovesOn(c, w, r, Step(c, SliceOf(w, r), a).next)
  {
    var s := SliceOf(w, r);
    var reply := Step(c, s, a);
    var t := reply.next;
    assert RoomFits(c, w, r);
    StepKeeps(c, s, a);
    StepEffect(c, s, a);
    RemainingIsNatural(c, s.room, s.timer);
    RemainingIsNatural(c, t.room, t.timer);
    hide Step, RoomInv, Remaining, Running, UserFits, ExchangeInv;
    if reply.Refused? {
      RefusedMovesOn(c, w, r, t);
    } else {
      AcceptedMovesOn(c, w, r, t);
    }
  }

  lemma RefusedMovesOn(c: Config, w: World, r: RoomId, t: Slice)
    requires Consistent(c, w) && r in w.rooms
    requires t.room == w.rooms[r] && t.users == w.users && RoomInv(c, t.room, t.timer)
    ensures MovesOn(c, w, r, t)
  {
    hide RoomInv, UserFits, ExchangeInv, SeatState;
    assert RoomFits(c, w, r);
  }

  lemma AcceptedMovesOn(c: Config, w: World, r: RoomId, t: Slice)
    requires Consistent(c, w) && r in w.rooms && !w.rooms[r].state.Completed?
    requires RoomInv(c, t.room, t.timer) && Effect(SliceOf(w, r), t)
    ensures MovesOn(c, w, r, t)
  {
    hide Effect, RoomInv, SeatState, ExchangeInv, Open, MovedAlong, UserFits;
    var s := SliceOf(w, r);
    assert RoomFits(c, w, r);
    hide Consistent;
    EffectOnUsers(s, t);
    AcceptedSeats(c, w, r, t);
    PairingStaysSound(c, s, t);
  }

  lemma AcceptedSeats(c: Config, w: World, r: RoomId, t: Slice)
    requires Consistent(c, w) && r in w.rooms && !w.rooms[r].state.Completed?
    requires RoomInv(c, t.room, t.timer) && Effect(SliceOf(w, r), t)
    ensures forall u | u in t.users && Open(t.room, u) :: SeatState(t.room, t.users[u].state)
  {
    hide Consistent, RoomInv, Effect, SeatState, Open;
    forall u | u in t.users && Open(t.room, u) ensures SeatState(t.room, t.users[u].state) {
      AcceptedSeat(c, w, r, t, u);
    }
  }

  lemma EffectOnUsers(s: Slice, t: Slice)
    requires Effect(s, t)
    ensures t.users.Keys == s.users.Keys && t.room.members.Keys == s.room.members.Keys
    ensures forall u | u in s.users :: MovedAlong(s.room, t.room, s.users[u], t.users[u], u)
  {
    assert t.users.Keys == UsersAfter(s.users, s.room, t.room).Keys == s.users.Keys;
    hide MovedAlong;
    forall u | u in s.users ensures MovedAlong(s.room, t.room, s.users[u], t.users[u], u) {
      EffectOnUser(s, t, u);
    }
  }

  /** A seat that is open after a step was open before it. */
  lemma OpenBefore(c: Config, w: World, r: RoomId, t: Slice, u: UserId)
    requires Consistent(c, w) && r in w.rooms && Effect(SliceOf(w, r), t) && u in t.users && Open(t.room, u)
    ensures u in w.users
    ensures RoomInv(c, w.rooms[r], TimerOf(w, r)) && Open(w.rooms[r], u) && SeatState(w.rooms[r], w.users[u].state)
  {
    hide RoomInv, UserFits, ExchangeInv, SeatState;
    assert RoomFits(c, w, r);
    assert t.users.Keys == w.users.Keys;
    EffectOnUser(SliceOf(w, r), t, u);
    hide Effect;
  }

  lemma NewMatchIsFresh(s: Slice, t: Slice)
    requires Effect(s, t)
    ensures s.room.pairing.None? && t.room.pairing.Some? ==> IsFresh(t.room.pairing.value)
  {
  }

  lemma AcceptedSeat(c: Config, w: World, r: RoomId, t: Slice, u: UserId)
    requires Consistent(c, w) && r in w.rooms && !w.rooms[r].state.Completed?
    requires RoomInv(c, t.room, t.timer) && Effect(SliceOf(w, r), t)
    requires u in t.users && Open(t.room, u)
    ensures SeatState(t.room, t.users[u].state)
  {
    hide Consistent, RoomInv, Effect;
    var s := SliceOf(w, r);
    OpenBefore(c, w, r, t, u);
    NewMatchIsFresh(s, t);
    EffectOnUser(s, t, u);
    SelectedOnlyAtTheEnd(c, t.room, t.timer, u);
    SelectedOnlyAtTheEnd(c, s.room, s.timer, u);
  }

  lemma PairingStaysSound(c: Config, s: Slice, t: Slice)
    requires Effect(s, t) && RoomInv(c, t.room, t.timer)
    requires s.room.pairing.Some? ==> ExchangeInv(s.room.pairing.value)
    ensures t.room.pairing.Some? ==> ExchangeInv(t.room.pairing.value)
  {
    if t.room.pairing.Some? && s.room.pairing.None? {
      PartiesDiffer(c, t.room, t.timer);
      hide RoomInv;
    }
  }

  lemma PartiesDiffer(c: Config, r: Room, timer: Option<Timer>)
    requires RoomInv(c, r, timer) && r.pairing.Some?
    ensures r.state.Completed? && r.pairing.value.challenger != r.pairing.value.audience
  {
    hide IsWalk, AnsweredUpTo, Ballots, SessionRoll, SessionFits, Listing, Benched;
  }
}
