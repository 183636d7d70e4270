/** Quantities over whole automatic runs: how often a room can move, and how many rooms an arrival forms. */
module RunBounds {
  import opened Domain
  import opened RoomStates
  import opened Protocol
  import opened RoomInvariant
  import opened QuestioningVoting
  import opened RoomRuns
  import opened Effects
  import opened Queue
  import opened Matchmaker
  import opened Contacts
  import opened World
  import opened Formation
  import opened AutomaticRuns

  // ----- Rooms stay sound whoever rejoins -----

  lemma SliceKeepsSound(c: Config, w: World, r: RoomId, t: Slice)
    requires SoundRooms(c, w) && r in w.rooms && RoomInv(c, t.room, t.timer)
    ensures SoundRooms(c, WithSlice(w, r, t))
  {
    hide RoomInv;
    var v := WithSlice(w, r, t);
    forall q | q in v.rooms ensures SoundRoom(c, v, q) {
      assert q in w.rooms && SoundRoom(c, w, q);
    }
  }

  lemma SameRoomsSound(c: Config, w: World, v: World)
    requires SoundRooms(c, w) && v == w.(users := v.users, now := v.now)
    ensures SoundRooms(c, v)
  {
    hide RoomInv;
    forall q | q in v.rooms ensures SoundRoom(c, v, q) {
      assert SoundRoom(c, w, q);
    }
  }

  lemma StepIsSound(c: Config, s: Slice, a: Action)
    requires RoomInv(c, s.room, s.timer)
    ensures var t := Step(c, s, a).next; RoomInv(c, t.room, t.timer)
  {
    StepKeeps(c, s, a);
    hide Step, RoomInv;
  }

  lemma ContactIsSound(c: Config, w: World, r: RoomId, s: Submission)
    requires SoundRooms(c, w) && r in w.rooms && w.rooms[r].pairing.Some?
    ensures var t := Submitted(c, w, r, s); RoomInv(c, t.room, t.timer)
  {
    hide RoomInv, SubmissionError;
    assert SoundRoom(c, w, r);
    PairingReplaced(c, w.rooms[r], TimerOf(w, r), Submitted(c, w, r, s).room.pairing.value);
  }

  lemma ReachedSound(c: Config, w: World, e: Event)
    requires SoundRooms(c, w)
    ensures SoundRooms(c, Reached(c, w, e))
  {
    hide RoomInv, Step, Transition, Submitted, SoundRooms;
    match e
    case Act(r, a) =>
      if r in w.rooms {
        SoundRoomOf(c, w, r);
        StepIsSound(c, SliceOf(w, r), a);
        SliceKeepsSound(c, w, r, Step(c, SliceOf(w, r), a).next);
      }
    case Start(r) => StartedSound(c, w, r, RoomState.Intro);
    case StartQuestioning(r) => StartedSound(c, w, r, RoomState.Questioning);
    case GiveContact(r, s) =>
      if r in w.rooms && w.rooms[r].pairing.Some? {
        ContactIsSound(c, w, r, s);
        SliceKeepsSound(c, w, r, Submitted(c, w, r, s));
      }
    case _ => SameRoomsSound(c, w, Reached(c, w, e));
  }

  lemma SoundRoomOf(c: Config, w: World, r: RoomId)
    requires SoundRooms(c, w) && r in w.rooms
    ensures RoomInv(c, w.rooms[r], TimerOf(w, r)) && r < w.nextRoom
  {
    hide RoomInv;
    assert SoundRoom(c, w, r);
  }

  lemma StartedSound(c: Config, w: World, r: RoomId, target: RoomState)
    requires SoundRooms(c, w) && (target.Intro? || target.Questioning?)
    ensures r in w.rooms ==> SoundRooms(c, Started(w, r, target))
  {
    hide RoomInv, Transition, SoundRooms, Remaining;
    if r in w.rooms {
      SoundRoomOf(c, w, r);
      StartKeeps(c, SliceOf(w, r), target);
      SliceKeepsSound(c, w, r, Transition(SliceOf(w, r), target).next);
    }
  }

  lemma FormationSound(c: Config, pool: map<QuestionId, Question>, w: World, v: World)
    requires Sensible(c) && SoundRooms(c, w) && Forms(c, pool, w, v)
    ensures SoundRooms(c, v)
  {
    hide RoomInv, Forms, Pass, Everyone, AllIn, Assigned, Apart, InQueue;
    var ps := Pass(c, pool, w.users);
    FormsJoins(c, pool, w, v);
    forall r | r in v.rooms ensures SoundRoom(c, v, r) {
      if r in w.rooms {
        assert SoundRoom(c, w, r);
      } else {
        assert Opens(c, v.rooms[w.nextRoom + (r - w.nextRoom)], ps[r - w.nextRoom]);
        assert r !in v.timers;
      }
    }
  }

  lemma NextSound(c: Config, pool: map<QuestionId, Question>, w: World, e: Event, v: World)
    requires Sensible(c) && SoundRooms(c, w) && Next(c, pool, w, e, v)
    ensures SoundRooms(c, v)
  {
    hide SoundRooms, Forms, Reached, Forming, Allowed;
    ReachedSound(c, w, e);
    if Forming(c, w, e) {
      FormationSound(c, pool, Reached(c, w, e), v);
    }
  }

  /** In every world of every run all rooms are sound, rejoins out of a game included. */
  lemma {:induction false} RunIsSound(c: Config, pool: map<QuestionId, Question>, ws: seq<World>, es: seq<Event>, i: nat)
    requires Sensible(c) && IsRun(c, pool, ws, es) && IsStart(ws[0]) && i <= |es|
    ensures SoundRooms(c, ws[i])
  {
    hide Next;
    if i > 0 {
      RunIsSound(c, pool, ws, es, i - 1);
      hide SoundRooms, IsStart;
      NextSound(c, pool, ws[i - 1], es[i - 1], ws[i]);
    }
  }

  // ----- The bound on a room's steps -----

  /** The accepted steps a room can still make; before questioning starts, all of them. */
  function Budget(c: Config, r: Room): int {
    if r.state.Ready? || r.state.Intro? then c.rounds + 4 * |Panel(r)| + 1 else Remaining(c, r)
  }

  /** The event is a player or timer step of this room, and it is accepted. */
  ghost predicate Accepts(c: Config, w: World, e: Event, r: RoomId) {
    e.Act? && e.room == r && r in w.rooms && Step(c, SliceOf(w, r), e.action).Ok?
  }

  ghost function Accepted(c: Config, ws: seq<World>, es: seq<Event>, r: RoomId): nat
    requires |ws| == |es| + 1
  {
    if es == [] then 0
    else
      var n := |es| - 1;
      Accepted(c, ws[..|es|], es[..n], r) + if Accepts(c, ws[n], es[n], r) then 1 else 0
  }

  lemma StepBudget(c: Config, s: Slice, a: Action)
    requires RoomInv(c, s.room, s.timer)
    ensures var reply := Step(c, s, a);
      && Panel(reply.next.room) == Panel(s.room)
      && Budget(c, reply.next.room) + (if reply.Ok? then 1 else 0) <= Budget(c, s.room)
  {
    hide RoomInv, Step, Effect, Running;
    var reply := Step(c, s, a);
    StepKeeps(c, s, a);
    StepEffect(c, s, a);
    RemainingIsNatural(c, s.room, s.timer);
    RemainingIsNatural(c, reply.next.room, reply.next.timer);
    PanelStays(s, reply.next);
    if reply.Ok? {
      NotBeforeQuestioning(c, s.room, reply.next.room);
      RunningHasStarted(c, reply.next.room, reply.next.timer);
    }
  }

  lemma NotBeforeQuestioning(c: Config, r: Room, q: Room)
    requires 0 <= Remaining(c, q) < Remaining(c, r)
    ensures !r.state.Ready? && !r.state.Intro?
  {
  }

  lemma RunningHasStarted(c: Config, r: Room, timer: Option<Timer>)
    requires Running(c, r, timer)
    ensures !r.state.Ready? && !r.state.Intro?
  {
    hide Roster, IsWalk, PhaseInv;
  }

  lemma StartBudget(c: Config, s: Slice, target: RoomState)
    requires RoomInv(c, s.room, s.timer) && (target.Intro? || target.Questioning?)
    ensures var t := Transition(s, target).next;
      Panel(t.room) == Panel(s.room) && Budget(c, t.room) == Budget(c, s.room)
  {
    hide RoomInv, Transition, Remaining;
    StartKeeps(c, s, target);
    assert Panel(Transition(s, target).next.room) == Panel(s.room);
  }

  /** Outside a room's own steps nothing in it changes but its match row. */
  ghost predicate Untouched(r: Room, q: Room) {
    q == r.(pairing := q.pairing)
  }

  lemma UntouchedBudget(c: Config, r: Room, q: Room)
    requires Untouched(r, q)
    ensures Panel(q) == Panel(r) && Budget(c, q) == Budget(c, r)
  {
    assert Panel(q) == Panel(r);
  }

  lemma FormationKeepsRooms(c: Config, pool: map<QuestionId, Question>, w: World, v: World, r: RoomId)
    requires Sensible(c) && Forms(c, pool, w, v) && r in w.rooms
    ensures r in v.rooms && v.rooms[r] == w.rooms[r]
  {
    hide Pass, QueuesLeft, Assigned, AllIn, RoomMade;
  }

  lemma ReachedBudget(c: Config, w: World, e: Event, r: RoomId)
    requires SoundRooms(c, w) && Allowed(w, e) && r in w.rooms
    ensures var v := Reached(c, w, e);
      && r in v.rooms && Panel(v.rooms[r]) == Panel(w.rooms[r])
      && Budget(c, v.rooms[r]) + (if Accepts(c, w, e, r) then 1 else 0) <= Budget(c, w.rooms[r])
  {
    hide RoomInv, Step, Transition, Budget, Submit, Panel;
    assert SoundRoom(c, w, r);
    var v := Reached(c, w, e);
    match e
    case Act(q, a) =>
      if q == r {
        StepBudget(c, SliceOf(w, r), a);
      }
    case Start(q) =>
      if q == r {
        StartBudget(c, SliceOf(w, r), RoomState.Intro);
      }
    case StartQuestioning(q) =>
      if q == r {
        StartBudget(c, SliceOf(w, r), RoomState.Questioning);
      }
    case GiveContact(q, s) => UntouchedBudget(c, w.rooms[r], v.rooms[r]);
    case _ =>
  }

  lemma NextBudget(c: Config, pool: map<QuestionId, Question>, w: World, e: Event, v: World, r: RoomId)
    requires Sensible(c) && SoundRooms(c, w) && Next(c, pool, w, e, v) && r in w.rooms
    ensures r in v.rooms && Panel(v.rooms[r]) == Panel(w.rooms[r])
    ensures Budget(c, v.rooms[r]) + (if Accepts(c, w, e, r) then 1 else 0) <= Budget(c, w.rooms[r])
  {
    hide SoundRooms, Forms, Reached, Forming, Allowed, Budget, Panel, Accepts;
    ReachedBudget(c, w, e, r);
    if Forming(c, w, e) {
      FormationKeepsRooms(c, pool, Reached(c, w, e), v, r);
    }
  }

  /** A room that an event makes has its whole budget ahead of it. */
  lemma NewRoomBudget(c: Config, pool: map<QuestionId, Question>, w: World, e: Event, v: World, r: RoomId)
    requires Sensible(c) && Next(c, pool, w, e, v) && r !in w.rooms && r in v.rooms
    ensures Budget(c, v.rooms[r]) == c.rounds + 4 * |Panel(v.rooms[r])| + 1
  {
    hide Forms, Forming, Allowed, Budget, Panel, Step, Transition, Submit, RoomsJoin;
    var m := Reached(c, w, e);
    assert r !in m.rooms;
    FormsJoins(c, pool, m, v);
    NewRoomIsReady(c, m, v, Pass(c, pool, m.users), r);
    ReadyBudget(c, v.rooms[r]);
  }

  lemma NewRoomIsReady(c: Config, w: World, v: World, ps: seq<Plan>, r: RoomId)
    requires RoomsJoin(c, w, v, ps) && r !in w.rooms && r in v.rooms
    ensures v.rooms[r].state.Ready?
  {
    hide RoomInv, Apart;
    assert Opens(c, v.rooms[w.nextRoom + (r - w.nextRoom)], ps[r - w.nextRoom]);
  }

  lemma ReadyBudget(c: Config, r: Room)
    requires r.state.Ready?
    ensures Budget(c, r) == c.rounds + 4 * |Panel(r)| + 1
  {
  }

  /**
   From its making to any later moment of a run, a room with A audience members accepts at most
   N + 4A + 1 player and timer steps, and what it has accepted comes off what it still can.
   */
  lemma {:induction false} StepsAreBounded(c: Config, pool: map<QuestionId, Question>, ws: seq<World>, es: seq<Event>, r: RoomId)
    requires Sensible(c) && IsRun(c, pool, ws, es) && IsStart(ws[0])
    requires r in ws[|es|].rooms
    ensures var room := ws[|es|].rooms[r];
      && Accepted(c, ws, es, r) + Budget(c, room) <= c.rounds + 4 * |Panel(room)| + 1
      && Budget(c, room) >= 0
    decreases |es|
  {
    hide Next, Budget, Panel, Accepts, IsStart, SoundRooms;
    var n := |es|;
    RunIsSound(c, pool, ws, es, n);
    BudgetIsNatural(c, ws[n], r);
    if n == 0 {
      NoRoomAtStart(ws[0], r);
    } else if r in ws[n - 1].rooms {
      StepsAreBounded(c, pool, ws[..n], es[..n - 1], r);
      RunIsSound(c, pool, ws, es, n - 1);
      NextBudget(c, pool, ws[n - 1], es[n - 1], ws[n], r);
    } else {
      NoneAcceptedBefore(c, pool, ws[..n], es[..n - 1], r);
      RunIsSound(c, pool, ws, es, n - 1);
      NewRoomBudget(c, pool, ws[n - 1], es[n - 1], ws[n], r);
      NotAccepted(c, ws[n - 1], es[n - 1], r);
    }
  }

  lemma NoRoomAtStart(w: World, r: RoomId)
    requires IsStart(w)
    ensures r !in w.rooms
  {
  }

  lemma NotAccepted(c: Config, w: World, e: Event, r: RoomId)
    requires r !in w.rooms
    ensures !Accepts(c, w, e, r)
  {
  }

  lemma BudgetIsNatural(c: Config, w: World, r: RoomId)
    requires SoundRooms(c, w) && r in w.rooms
    ensures Budget(c, w.rooms[r]) >= 0
    ensures w.rooms[r].state.Completed? ==> Budget(c, w.rooms[r]) == 0
  {
    hide RoomInv, Remaining;
    assert SoundRoom(c, w, r);
    RemainingIsNatural(c, w.rooms[r], TimerOf(w, r));
  }

  /** Rooms are never removed, so one that is not there yet has accepted nothing. */
  lemma {:induction false} NoneAcceptedBefore(c: Config, pool: map<QuestionId, Question>, ws: seq<World>, es: seq<Event>, r: RoomId)
    requires Sensible(c) && IsRun(c, pool, ws, es) && IsStart(ws[0])
    requires r !in ws[|es|].rooms
    ensures Accepted(c, ws, es, r) == 0
    decreases |es|
  {
    hide Next, Budget, Panel, Accepts, IsStart, SoundRooms;
    var n := |es|;
    if n > 0 {
      RunIsSound(c, pool, ws, es, n - 1);
      if r in ws[n - 1].rooms {
        NextBudget(c, pool, ws[n - 1], es[n - 1], ws[n], r);
      }
      NoneAcceptedBefore(c, pool, ws[..n], es[..n - 1], r);
      NotAccepted(c, ws[n - 1], es[n - 1], r);
    }
  }

  // ----- Queues at rest -----

  /** No room is formable from the queues as they stand. */
  ghost predicate AtRest(c: Config, users: map<UserId, User>) {
    !Formable(|InQueue(users, Male)|, |InQueue(users, Female)|, c.threshold)
  }

  ghost predicate AmpleQuestions(c: Config, pool: map<QuestionId, Question>) {
    Enough(c, pool, Male) && Enough(c, pool, Female)
  }

  /** After a pass the queues are at rest, and the number of rooms made is that of the closed form. */
  lemma FormationRests(c: Config, pool: map<QuestionId, Question>, w: World, v: World)
    requires Sensible(c) && AmpleQuestions(c, pool) && Forms(c, pool, w, v)
    ensures AtRest(c, v.users)
    ensures var m := |InQueue(w.users, Male)|; var f := |InQueue(w.users, Female)|;
      v.nextRoom == w.nextRoom + FemaleRooms(m, f, c.threshold) + MaleRooms(m, f, c.threshold)
  {
    FormationOutcome(c, pool, w.users, w.rooms, w.nextRoom, v.users, v.rooms, v.nextRoom);
    hide Enough, Formed, IsRest, RoomsAt, FemaleRooms, MaleRooms, InQueue, Formable;
  }

  lemma AtRestFormsNone(m: nat, f: nat, t: nat)
    requires t >= 1 && !Formable(m, f, t)
    ensures FemaleRooms(m, f, t) + MaleRooms(m, f, t) == 0
  {
    assert Quotient(0, t) == 0;
  }

  /** Fewer people in the queues never make a room formable. */
  lemma DeparturesRest(c: Config, users: map<UserId, User>, later: map<UserId, User>)
    requires AtRest(c, users)
    requires InQueue(later, Male) <= InQueue(users, Male) && InQueue(later, Female) <= InQueue(users, Female)
    ensures AtRest(c, later)
  {
    hide InQueue;
    SubsetCount(InQueue(later, Male), InQueue(users, Male));
    SubsetCount(InQueue(later, Female), InQueue(users, Female));
  }

  /** A step of a room queues nobody. */
  lemma EffectQueuesNobody(s: Slice, t: Slice, g: Gender)
    requires Effect(s, t)
    ensures InQueue(t.users, g) <= InQueue(s.users, g)
  {
  }

  lemma SubmissionQueuesNobody(c: Config, e: Exchange, s: Submission, g: Gender)
    requires Submit(c, e, s).Done?
    ensures InQueue(Submit(c, e, s).next.users, g) <= InQueue(e.users, g)
  {
    hide SubmissionError, CleanContact;
  }

  /** Somebody enters the queue who was not in it. */
  predicate Arrives(w: World, e: Event) {
    || e.Join?
    || (e.Connect? && e.user in w.users && w.users[e.user].state.Waiting?)
    || (e.Rejoin? && e.user in w.users && !w.users[e.user].state.Completed? && !w.users[e.user].state.Queued?)
  }

  /** The queues an event leaves for its caller: those before it, with at most one arrival and no other. */
  ghost predicate OneMoreAtMost(users: map<UserId, User>, later: map<UserId, User>, u: UserId) {
    && InQueue(later, Male) <= InQueue(users, Male) + {u} && InQueue(later, Female) <= InQueue(users, Female) + {u}
    && InQueue(later, Male) !! InQueue(later, Female)
  }

  lemma ReachedQueues(c: Config, w: World, e: Event)
    requires SoundRooms(c, w) && Allowed(w, e)
    ensures Reached(c, w, e).nextRoom == w.nextRoom
    ensures var v := Reached(c, w, e);
      if Arrives(w, e) then OneMoreAtMost(w.users, v.users, e.user)
      else InQueue(v.users, Male) <= InQueue(w.users, Male) && InQueue(v.users, Female) <= InQueue(w.users, Female)
  {
    hide SoundRooms, RoomInv, Step, Transition, Submit, Effect;
    match e
    case Act(r, a) =>
      if r in w.rooms {
        SoundRoomOf(c, w, r);
        StepEffect(c, SliceOf(w, r), a);
        EffectQueuesNobody(SliceOf(w, r), Step(c, SliceOf(w, r), a).next, Male);
        EffectQueuesNobody(SliceOf(w, r), Step(c, SliceOf(w, r), a).next, Female);
      }
    case Start(r) => StartKeepsQueues(c, w, r, RoomState.Intro);
    case StartQuestioning(r) => StartKeepsQueues(c, w, r, RoomState.Questioning);
    case GiveContact(r, s) =>
      if r in w.rooms && w.rooms[r].pairing.Some? {
        var x := Exchange(w.rooms[r].pairing.value, w.users);
        if Submit(c, x, s).Done? {
          SubmissionQueuesNobody(c, x, s, Male);
          SubmissionQueuesNobody(c, x, s, Female);
        }
      }
    case _ =>
  }

  lemma StartKeepsQueues(c: Config, w: World, r: RoomId, target: RoomState)
    requires SoundRooms(c, w) && (target.Intro? || target.Questioning?)
    ensures r in w.rooms ==> Started(w, r, target).nextRoom == w.nextRoom && Started(w, r, target).users == w.users
  {
    hide SoundRooms, RoomInv, Transition, Remaining;
    if r in w.rooms {
      SoundRoomOf(c, w, r);
      StartKeeps(c, SliceOf(w, r), target);
    }
  }

  /** From queues at rest, one arrival lets a pass make at most one room. */
  lemma ArrivalFormsOne(c: Config, users: map<UserId, User>, later: map<UserId, User>, u: UserId)
    requires Sensible(c) && AtRest(c, users) && OneMoreAtMost(users, later, u)
    ensures var m := |InQueue(later, Male)|; var f := |InQueue(later, Female)|;
      FemaleRooms(m, f, c.threshold) + MaleRooms(m, f, c.threshold) <= 1
  {
    var m, f := InQueue(later, Male), InQueue(later, Female);
    hide InQueue, FemaleRooms, MaleRooms, Formable;
    SubsetCount(m - {u}, InQueue(users, Male));
    SubsetCount(f - {u}, InQueue(users, Female));
    OneOut(m, u);
    OneOut(f, u);
    FewerFormable(|m - {u}|, |f - {u}|, |InQueue(users, Male)|, |InQueue(users, Female)|, c.threshold);
    AtRestFormsNone(|m - {u}|, |f - {u}|, c.threshold);
    OneArrivalOneRoom(|m - {u}|, |f - {u}|, c.threshold);
  }

  lemma OneOut<T>(s: set<T>, x: T)
    ensures |s| == |s - {x}| + if x in s then 1 else 0
  {
    if x in s {
      assert s == (s - {x}) + {x};
    } else {
      assert s == s - {x};
    }
  }

  lemma FewerFormable(m: nat, f: nat, m': nat, f': nat, t: nat)
    requires m <= m' && f <= f' && !Formable(m', f', t)
    ensures !Formable(m, f, t)
  {
  }

  /**
   With enough questions the queues stay at rest: after every event no room is formable, a single
   arrival makes at most one room, and nothing else makes any.
   */
  lemma NextRests(c: Config, pool: map<QuestionId, Question>, w: World, e: Event, v: World)
    requires Sensible(c) && AmpleQuestions(c, pool) && SoundRooms(c, w) && Next(c, pool, w, e, v) && AtRest(c, w.users)
    ensures AtRest(c, v.users)
    ensures v.nextRoom <= w.nextRoom + if Arrives(w, e) then 1 else 0
  {
    hide SoundRooms, Reached, AtRest, Forms, AmpleQuestions, InQueue, FemaleRooms, MaleRooms, OneMoreAtMost;
    var m := Reached(c, w, e);
    ReachedQueues(c, w, e);
    if Arrives(w, e) {
      ArrivalFormsOne(c, w.users, m.users, e.user);
      FormationRests(c, pool, m, v);
    } else {
      DeparturesRest(c, w.users, m.users);
      if Forming(c, w, e) {
        FormationRests(c, pool, m, v);
        AtRestForms(c, m.users);
      }
    }
  }

  lemma AtRestForms(c: Config, users: map<UserId, User>)
    requires Sensible(c) && AtRest(c, users)
    ensures FemaleRooms(|InQueue(users, Male)|, |InQueue(users, Female)|, c.threshold)
      + MaleRooms(|InQueue(users, Male)|, |InQueue(users, Female)|, c.threshold) == 0
  {
    AtRestFormsNone(|InQueue(users, Male)|, |InQueue(users, Female)|, c.threshold);
  }

  /** In every world a run from queues at rest reaches, no room is formable. */
  lemma {:induction false} RunRests(c: Config, pool: map<QuestionId, Question>, ws: seq<World>, es: seq<Event>, i: nat)
    requires Sensible(c) && AmpleQuestions(c, pool) && IsRun(c, pool, ws, es) && IsStart(ws[0]) && AtRest(c, ws[0].users)
    requires i <= |es|
    ensures AtRest(c, ws[i].users)
  {
    hide Next, AtRest, AmpleQuestions, IsStart, SoundRooms;
    if i > 0 {
      RunRests(c, pool, ws, es, i - 1);
      RunIsSound(c, pool, ws, es, i - 1);
      NextRests(c, pool, ws[i - 1], es[i - 1], ws[i]);
    }
  }
}
