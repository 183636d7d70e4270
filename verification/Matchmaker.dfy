/** QueueManager and RoomManager: queue membership and all-or-nothing room creation, on the tables they update. */
module Matchmaker {
  import opened Domain
  import opened Ordering
  import opened Queue

  /** An active question that a challenger of this gender may be asked. */
  predicate Suits(pool: map<QuestionId, Question>, g: Gender, q: QuestionId) {
    q in pool && pool[q].active && (pool[q].target.None? || pool[q].target.value == g)
  }

  function Eligible(pool: map<QuestionId, Question>, g: Gender): set<QuestionId> {
    set q | q in pool && Suits(pool, g, q)
  }

  lemma EligibleIs(pool: map<QuestionId, Question>, g: Gender)
    ensures Eligible(pool, g) == set q | q in pool && pool[q].active && (pool[q].target.None? || pool[q].target.value == g)
  {
  }

  predicate Enough(c: Config, pool: map<QuestionId, Question>, g: Gender) {
    |Eligible(pool, g)| >= c.rounds
  }

  /** A room as create_room_with_participants commits it; which questions were drawn is left open. */
  ghost predicate IsNewRoom(c: Config, pool: map<QuestionId, Question>, g: Gender, p: Plan, r: Room) {
    && r.state.Ready? && r.challenger == p.challenger && r.round == 0 && r.question.None?
    && r.members.Keys == {p.challenger} + Elements(p.audience)
    && (forall u | u in r.members ::
         && r.members[u].status.Active? && r.members[u].leftAt.None?
         && r.members[u].role == if u == p.challenger then Role.Challenger else Role.Audience)
    && |r.questions| == c.rounds
    && (forall i | 0 <= i < |r.questions| :: Suits(pool, g, r.questions[i]))
    && (forall i, j | 0 <= i < j < |r.questions| :: r.questions[i] != r.questions[j])
    && r.answers == [] && r.votes == [] && r.sessions == [] && r.pairing.None? && r.history == []
  }

  function Everyone(p: Plan): set<UserId> {
    {p.challenger} + Elements(p.audience)
  }

  lemma AssignedEach(users: map<UserId, User>, xs: seq<UserId>)
    ensures Assigned(users, Elements(xs)) == map u | u in users ::
      if u in xs then users[u].(state := UserState.InGame, queuedAt := None) else users[u]
  {
  }

  lemma AssignedParty(users: map<UserId, User>, challenger: UserId, audience: seq<UserId>)
    ensures Elements([challenger]) == {challenger}
    ensures Assigned(users, Everyone(Plan(challenger, audience))) == map u | u in users ::
      if u == challenger || u in audience then users[u].(state := UserState.InGame, queuedAt := None) else users[u]
  {
  }

  function AllIn(ps: seq<Plan>): set<UserId> {
    if ps == [] then {} else AllIn(ps[..|ps| - 1]) + Everyone(ps[|ps| - 1])
  }

  datatype Result = Created(room: RoomId) | Failed(error: Error)

  /** The rooms one formation pass makes of the queues as they stand. */
  ghost function Pass(c: Config, pool: map<QuestionId, Question>, users: map<UserId, User>): seq<Plan>
    requires Sensible(c)
  {
    Plans(QueueOf(users, Male), QueueOf(users, Female), c.threshold, Enough(c, pool, Female), Enough(c, pool, Male))
  }

  /** What the queues look like after the pass. */
  ghost function QueuesLeft(c: Config, pool: map<QuestionId, Question>, users: map<UserId, User>): (seq<UserId>, seq<UserId>)
    requires Sensible(c)
  {
    LeftOver(QueueOf(users, Male), QueueOf(users, Female), c.threshold, Enough(c, pool, Female), Enough(c, pool, Male))
  }

  ghost predicate RoomMade(c: Config, pool: map<QuestionId, Question>, users: map<UserId, User>, p: Plan,
    rooms: map<RoomId, Room>, id: RoomId)
  {
    p.challenger in users && id in rooms && IsNewRoom(c, pool, users[p.challenger].gender, p, rooms[id])
  }

  /** The rooms of a pass, under consecutive fresh ids, beside the rooms there were. */
  ghost predicate RoomsAdded(c: Config, pool: map<QuestionId, Question>, ps: seq<Plan>, users: map<UserId, User>,
    rooms: map<RoomId, Room>, nextRoom: RoomId, rooms': map<RoomId, Room>)
  {
    && (forall r :: r in rooms' <==> r in rooms || nextRoom <= r < nextRoom + |ps|)
    && (forall r | r in rooms :: rooms'[r] == rooms[r])
    && (forall i | 0 <= i < |ps| :: RoomMade(c, pool, users, ps[i], rooms', nextRoom + i))
  }

  /**
   The effect of one formation pass on the tables: exactly the rooms of the pass are made, exactly
   their people leave the queues, and the rest of both queues stays in order.
   */
  ghost predicate Formed(c: Config, pool: map<QuestionId, Question>,
    users: map<UserId, User>, rooms: map<RoomId, Room>, nextRoom: RoomId,
    users': map<UserId, User>, rooms': map<RoomId, Room>, nextRoom': RoomId)
    requires Sensible(c)
  {
    var ps := Pass(c, pool, users);
    && nextRoom' == nextRoom + |ps|
    && users' == Assigned(users, AllIn(ps))
    && RoomsAdded(c, pool, ps, users, rooms, nextRoom, rooms')
    && (QueueOf(users', Male), QueueOf(users', Female)) == QueuesLeft(c, pool, users)
  }

  /** One more room of the pass, and a shorter pass still to make. */
  ghost predicate Turn(c: Config, pool: map<QuestionId, Question>,
    users: map<UserId, User>, rooms: map<RoomId, Room>, nextRoom: RoomId, p: Plan,
    users': map<UserId, User>, rooms': map<RoomId, Room>, nextRoom': RoomId)
    requires Sensible(c)
  {
    && nextRoom' == nextRoom + 1
    && users' == Assigned(users, Everyone(p))
    && (forall r :: r in rooms' <==> r in rooms || r == nextRoom) && (forall r | r in rooms :: rooms'[r] == rooms[r])
    && RoomMade(c, pool, users, p, rooms', nextRoom)
    && Pass(c, pool, users) == [p] + Pass(c, pool, users')
    && QueuesLeft(c, pool, users) == QueuesLeft(c, pool, users')
  }

  ghost predicate Exhausted(c: Config, pool: map<QuestionId, Question>, users: map<UserId, User>)
    requires Sensible(c)
  {
    && Pass(c, pool, users) == []
    && QueuesLeft(c, pool, users) == (QueueOf(users, Male), QueueOf(users, Female))
  }

  class Store {
    var users: map<UserId, User>
    var rooms: map<RoomId, Room>
    var pool: map<QuestionId, Question>
    var nextRoom: RoomId
    var now: Time

    /** Room ids are handed out in increasing order. */
    ghost predicate Valid()
      reads this
    {
      forall r | r in rooms :: r < nextRoom
    }

    // ----- QueueManager -----

    /** add: only a user who has completed the event is refused. */
    method Add(user: UserId) returns (error: Option<Error>)
      requires user in users
      modifies this`users
      ensures error == if old(users)[user].state.Completed? then Some(UserAlreadyCompleted) else None
      ensures users == if error.Some? then old(users) else Enqueued(old(users), user, now)
      ensures error.None? ==>
        users == old(users)[user := old(users)[user].(state := UserState.Queued, queuedAt := Some(now))]
    {
      if users[user].state.Completed? {
        return Some(UserAlreadyCompleted);
      }
      users := users[user := users[user].(state := UserState.Queued)];
      users := users[user := users[user].(queuedAt := Some(now))];
      return None;
    }

    /** remove: the user waits outside the queue. */
    method Remove(user: UserId)
      requires user in users
      modifies this`users
      ensures users == Dequeued(old(users), user)
      ensures users == old(users)[user := old(users)[user].(state := UserState.Waiting, queuedAt := None)]
    {
      users := users[user := users[user].(state := UserState.Waiting)];
      users := users[user := users[user].(queuedAt := None)];
    }

    method GetSize(g: Gender) returns (n: nat)
      ensures n == |QueueOf(users, g)|
    {
      n := |InQueue(users, g)|;
    }

    /** The first `count` users of a queue, oldest entry first. */
    method SelectForRoom(g: Gender, count: nat) returns (selected: seq<UserId>)
      ensures selected == QueueOf(users, g)[..Min(count, |QueueOf(users, g)|)]
    {
      selected := List(QueueTimes(users), InQueue(users, g), count);
    }

    /** pop_many: the first `count` users of a queue, taken into a game one by one. */
    method PopMany(g: Gender, count: nat) returns (popped: seq<UserId>)
      modifies this`users
      ensures popped == QueueOf(old(users), g)[..Min(count, |QueueOf(old(users), g)|)]
      ensures users == Assigned(old(users), Elements(popped))
      ensures users == map u | u in old(users) ::
        if u in popped then old(users)[u].(state := UserState.InGame, queuedAt := None) else old(users)[u]
      ensures QueueOf(users, g) == QueueOf(old(users), g)[|popped|..]
    {
      popped := SelectForRoom(g, count);
      ghost var before := users;
      assert forall u | u in popped :: u in QueueOf(before, g);
      TakeInto(popped);
      AssignedEach(before, popped);
      hide Assigned;
      QueueDrops(before, g, |popped|, {});
      assert Elements(popped) + {} == Elements(popped);
    }

    /** The loop that moves users QUEUED -> IN_GAME and clears their queue timestamps. */
    method TakeInto(who: seq<UserId>)
      requires forall u | u in who :: u in users
      modifies this`users
      ensures users == Assigned(old(users), Elements(who))
    {
      var i := 0;
      while i < |who|
        invariant 0 <= i <= |who|
        invariant users == Assigned(old(users), Elements(who[..i]))
      {
        assert who[..i + 1] == who[..i] + [who[i]];
        assert Elements(who[..i + 1]) == Elements(who[..i]) + {who[i]};
        users := users[who[i] := users[who[i]].(state := UserState.InGame, queuedAt := None)];
        i := i + 1;
      }
      assert who[..|who|] == who;
    }

    // ----- RoomManager -----

    /** `count` distinct eligible questions, drawn arbitrarily, or nothing when there are fewer. */
    method SelectQuestions(g: Gender, count: nat) returns (drawn: Option<seq<QuestionId>>)
      ensures drawn.None? <==>
        |set q | q in pool && pool[q].active && (pool[q].target.None? || pool[q].target.value == g)| < count
      ensures drawn.Some? ==>
        && |drawn.value| == count
        && (forall q | q in drawn.value :: q in pool && pool[q].active)
        && (forall q | q in drawn.value :: pool[q].target.None? || pool[q].target.value == g)
        && (forall i, j | 0 <= i < j < count :: drawn.value[i] != drawn.value[j])
    {
      EligibleIs(pool, g);
      var eligible := Eligible(pool, g);
      if |eligible| < count {
        return None;
      }
      var sample: seq<QuestionId> := [];
      var left := eligible;
      while |sample| < count
        invariant left <= eligible && |sample| + |left| == |eligible| && |sample| <= count
        invariant forall i | 0 <= i < |sample| :: sample[i] in eligible && sample[i] !in left
        invariant forall i, j | 0 <= i < j < |sample| :: sample[i] != sample[j]
      {
        assert left != {};
        var q :| q in left;
        sample := sample + [q];
        left := left - {q};
      }
      return Some(sample);
    }

    /** The participant rows: the challenger's first, then one for each audience member. */
    method Seat(challenger: UserId, audience: seq<UserId>) returns (members: map<UserId, Member>)
      requires challenger !in audience
      ensures members.Keys == {challenger} + Elements(audience)
      ensures forall u | u in members ::
        && members[u].status.Active? && members[u].leftAt.None?
        && members[u].role == if u == challenger then Role.Challenger else Role.Audience
    {
      var at: Time := *;
      members := map[];
      members := members[challenger := Member(Role.Challenger, Status.Active, at, None)];
      var i := 0;
      while i < |audience|
        invariant 0 <= i <= |audience|
        invariant members.Keys == {challenger} + Elements(audience[..i])
        invariant forall u | u in members ::
          && members[u].status.Active? && members[u].leftAt.None?
          && members[u].role == if u == challenger then Role.Challenger else Role.Audience
      {
        assert audience[..i + 1] == audience[..i] + [audience[i]];
        assert Elements(audience[..i + 1]) == Elements(audience[..i]) + {audience[i]};
        at := *;
        members := members[audience[i] := Member(Role.Audience, Status.Active, at, None)];
        i := i + 1;
      }
      assert audience[..|audience|] == audience;
    }

    /** The challenger first, then the audience. */
    method TakeParty(challenger: UserId, audience: seq<UserId>)
      requires challenger in users && forall u | u in audience :: u in users
      modifies this`users
      ensures users == Assigned(old(users), Everyone(Plan(challenger, audience)))
      ensures users == map u | u in old(users) ::
        if u == challenger || u in audience then old(users)[u].(state := UserState.InGame, queuedAt := None) else old(users)[u]
    {
      ghost var before := users;
      TakeInto([challenger]);
      TakeInto(audience);
      AssignedTwice(before, Elements([challenger]), Elements(audience));
      AssignedParty(before, challenger, audience);
    }

    /**
     create_room_with_participants: the room, its rows and the users' states, or nothing at all.
     `storageFails` is the store raising before the commit, which rolls everything back.
     */
    method CreateRoomWithParticipants(c: Config, challenger: UserId, audience: seq<UserId>, storageFails: bool)
      returns (result: Result)
      requires Valid() && challenger in users && challenger !in audience
      requires forall u | u in audience :: u in users
      modifies this`users, this`rooms, this`nextRoom
      ensures Valid()
      ensures var g := old(users)[challenger].gender;
        result == if !Enough(c, pool, g) then Failed(InsufficientQuestions)
                  else if storageFails then Failed(StorageFailure)
                  else Result.Created(old(nextRoom))
      ensures result.Failed? ==> users == old(users) && rooms == old(rooms) && nextRoom == old(nextRoom)
      ensures result.Created? ==>
        && users == Assigned(old(users), Everyone(Plan(challenger, audience)))
        && nextRoom == old(nextRoom) + 1
        && (forall r :: r in rooms <==> r in old(rooms) || r == old(nextRoom))
        && (forall r | r in old(rooms) :: rooms[r] == old(rooms)[r])
        && RoomMade(c, pool, old(users), Plan(challenger, audience), rooms, old(nextRoom))
      ensures result.Created? ==> (users == map u | u in old(users) ::
        if u == challenger || u in audience then old(users)[u].(state := UserState.InGame, queuedAt := None) else old(users)[u])
      ensures result.Created? ==> forall q | q in rooms[result.room].questions ::
        q in pool && pool[q].active && (pool[q].target.None? || pool[q].target.value == old(users)[challenger].gender)
    {
      EligibleIs(pool, users[challenger].gender);
      hide Eligible, Assigned, Everyone;
      var drawn := SelectQuestions(users[challenger].gender, c.rounds);
      if drawn.None? {
        return Failed(InsufficientQuestions);
      }
      var before := users;
      TakeParty(challenger, audience);
      var members := Seat(challenger, audience);
      var room := Room(RoomState.Ready, challenger, 0, None, drawn.value, members, [], [], [], None, []);
      assert IsNewRoom(c, pool, before[challenger].gender, Plan(challenger, audience), room);
      hide IsNewRoom, Suits, Elements;
      if storageFails {
        users := before;
        return Failed(StorageFailure);
      }
      rooms := rooms[nextRoom := room];
      nextRoom := nextRoom + 1;
      return Result.Created(nextRoom - 1);
    }

    // ----- Room formation -----

    /** Either branch of the formation loop: the oldest `g` challenges the oldest of the other gender. */
    method FormRoom(c: Config, g: Gender) returns (result: Result, ghost p: Plan)
      requires Valid() && c.threshold <= |QueueOf(users, Opposite(g))| && 1 <= |QueueOf(users, g)|
      modifies this`users, this`rooms, this`nextRoom
      ensures Valid()
      ensures p == Plan(QueueOf(old(users), g)[0], QueueOf(old(users), Opposite(g))[..c.threshold])
      ensures p.challenger in old(users) && old(users)[p.challenger].gender == g
      ensures result == if Enough(c, pool, g) then Result.Created(old(nextRoom)) else Failed(InsufficientQuestions)
      ensures result.Failed? ==> users == old(users) && rooms == old(rooms) && nextRoom == old(nextRoom)
      ensures result.Created? ==>
        && users == Assigned(old(users), Everyone(p))
        && QueueOf(users, g) == QueueOf(old(users), g)[1..]
        && QueueOf(users, Opposite(g)) == QueueOf(old(users), Opposite(g))[c.threshold..]
        && nextRoom == old(nextRoom) + 1
        && (forall r :: r in rooms <==> r in old(rooms) || r == old(nextRoom))
        && (forall r | r in old(rooms) :: rooms[r] == old(rooms)[r])
        && RoomMade(c, pool, old(users), p, rooms, old(nextRoom))
    {
      ghost var before := users;
      var audience := SelectForRoom(Opposite(g), c.threshold);
      var selected := SelectForRoom(g, 1);
      var challenger := selected[0];
      p := Plan(challenger, audience);
      NextPlan(before, g, c.threshold);
      hide QueueOf, InQueue, Assigned, Everyone, RoomMade;
      result := CreateRoomWithParticipants(c, challenger, audience, false);
    }

    /** One turn of the formation loop: the next room of the pass, or the end of it. */
    method FormNext(c: Config) returns (formed: Option<RoomId>, ghost p: Plan)
      requires Sensible(c) && Valid()
      modifies this`users, this`rooms, this`nextRoom
      ensures Valid()
      ensures formed.None? ==>
        && users == old(users) && rooms == old(rooms) && nextRoom == old(nextRoom)
        && Exhausted(c, pool, users)
      ensures formed.Some? ==>
        && formed.value == old(nextRoom)
        && Turn(c, pool, old(users), old(rooms), old(nextRoom), p, users, rooms, nextRoom)
        && |QueueOf(users, Male)| + |QueueOf(users, Female)| < |QueueOf(old(users), Male)| + |QueueOf(old(users), Female)|
    {
      var males := GetSize(Male);
      var females := GetSize(Female);
      var result: Result;
      hide QueueOf, Assigned, Everyone, RoomMade, Enough;
      if males >= c.threshold && females >= 1 {
        result, p := FormRoom(c, Female);
      } else if females >= c.threshold && males >= 1 {
        result, p := FormRoom(c, Male);
      } else {
        p := Plan(0, []);
        return None, p;
      }
      if result.Failed? {
        return None, p;
      }
      return Some(result.room), p;
    }

    /** try_create_rooms: one pass over the queues, until no further room is formable or questions run short. */
    method TryCreateRooms(c: Config) returns (created: seq<RoomId>)
      requires Sensible(c) && Valid()
      modifies this`users, this`rooms, this`nextRoom
      ensures Valid()
      ensures Formed(c, pool, old(users), old(rooms), old(nextRoom), users, rooms, nextRoom)
      ensures |created| == nextRoom - old(nextRoom)
      ensures forall i | 0 <= i < |created| :: created[i] == old(nextRoom) + i
    {
      created := [];
      ghost var done: seq<Plan> := [];
      ghost var users0, rooms0, next0 := users, rooms, nextRoom;
      NothingYet(c, pool, users, rooms, nextRoom);
      hide SoFar, Formed, Turn, Exhausted, QueueOf;
      while true
        invariant Valid() && SoFar(c, pool, users0, rooms0, next0, done, created, users, rooms, nextRoom)
        decreases |QueueOf(users, Male)| + |QueueOf(users, Female)|
      {
        ghost var users1, rooms1, next1 := users, rooms, nextRoom;
        var formed: Option<RoomId>;
        ghost var p: Plan;
        formed, p := FormNext(c);
        if formed.None? {
          AllDone(c, pool, users0, rooms0, next0, done, created, users, rooms, nextRoom);
          return;
        }
        OneMoreTurn(c, pool, users0, rooms0, next0, done, created, users1, rooms1, next1, p, users, rooms, nextRoom);
        done := done + [p];
        created := created + [formed.value];
      }
    }
  }

  /** What a run of the formation loop has done, in terms of the pass it is part of. */
  ghost predicate SoFar(c: Config, pool: map<QuestionId, Question>,
    users0: map<UserId, User>, rooms0: map<RoomId, Room>, next0: RoomId,
    done: seq<Plan>, created: seq<RoomId>, users: map<UserId, User>, rooms: map<RoomId, Room>, nextRoom: RoomId)
    requires Sensible(c)
  {
    && (forall r | r in rooms0 :: r < next0) && nextRoom == next0 + |done|
    && |created| == |done| && (forall i | 0 <= i < |done| :: created[i] == next0 + i)
    && users == Assigned(users0, AllIn(done))
    && RoomsAdded(c, pool, done, users0, rooms0, next0, rooms)
    && Pass(c, pool, users0) == done + Pass(c, pool, users)
    && QueuesLeft(c, pool, users0) == QueuesLeft(c, pool, users)
  }

  lemma NothingYet(c: Config, pool: map<QuestionId, Question>, users: map<UserId, User>, rooms: map<RoomId, Room>, nextRoom: RoomId)
    requires Sensible(c) && forall r | r in rooms :: r < nextRoom
    ensures SoFar(c, pool, users, rooms, nextRoom, [], [], users, rooms, nextRoom)
  {
    assert AllIn([]) == {} && Assigned(users, {}) == users;
    hide Pass, QueuesLeft, Assigned;
  }

  lemma AllDone(c: Config, pool: map<QuestionId, Question>,
    users0: map<UserId, User>, rooms0: map<RoomId, Room>, next0: RoomId,
    done: seq<Plan>, created: seq<RoomId>, users: map<UserId, User>, rooms: map<RoomId, Room>, nextRoom: RoomId)
    requires Sensible(c) && SoFar(c, pool, users0, rooms0, next0, done, created, users, rooms, nextRoom)
    requires Exhausted(c, pool, users)
    ensures Formed(c, pool, users0, rooms0, next0, users, rooms, nextRoom)
    ensures |created| == nextRoom - next0 && (forall i | 0 <= i < |created| :: created[i] == next0 + i)
  {
    hide Pass, QueuesLeft, QueueOf, RoomsAdded, Assigned, AllIn;
    assert done + Pass(c, pool, users) == done;
  }

  lemma OneMoreTurn(c: Config, pool: map<QuestionId, Question>,
    users0: map<UserId, User>, rooms0: map<RoomId, Room>, next0: RoomId,
    done: seq<Plan>, created: seq<RoomId>, users1: map<UserId, User>, rooms1: map<RoomId, Room>, next1: RoomId,
    p: Plan, users2: map<UserId, User>, rooms2: map<RoomId, Room>, next2: RoomId)
    requires Sensible(c) && SoFar(c, pool, users0, rooms0, next0, done, created, users1, rooms1, next1)
    requires Turn(c, pool, users1, rooms1, next1, p, users2, rooms2, next2)
    ensures SoFar(c, pool, users0, rooms0, next0, done + [p], created + [next1], users2, rooms2, next2)
  {
    hide Pass, QueuesLeft, RoomMade, Assigned, AllIn, Everyone;
    OneMoreAssigned(users0, done, p);
    OneMoreRoom(c, pool, done, p, users0, users1, rooms0, next0, rooms1, rooms2);
    Regroup(done, p, Pass(c, pool, users2));
    hide RoomsAdded;
  }

  lemma Regroup<T>(xs: seq<T>, x: T, ys: seq<T>)
    ensures xs + ([x] + ys) == (xs + [x]) + ys
  {
  }

  /** The next room's people are at the head of the two queues, and taking them leaves the rest in order. */
  lemma NextPlan(users: map<UserId, User>, g: Gender, t: nat)
    requires t <= |QueueOf(users, Opposite(g))| && 1 <= |QueueOf(users, g)|
    ensures var p := Plan(QueueOf(users, g)[0], QueueOf(users, Opposite(g))[..t]);
      && p.challenger in users && users[p.challenger].gender == g && p.challenger !in p.audience
      && (forall u | u in p.audience :: u in users)
      && QueueOf(Assigned(users, Everyone(p)), g) == QueueOf(users, g)[1..]
      && QueueOf(Assigned(users, Everyone(p)), Opposite(g)) == QueueOf(users, Opposite(g))[t..]
  {
    var q := QueueOf(users, g);
    var o := QueueOf(users, Opposite(g));
    var p := Plan(q[0], o[..t]);
    assert forall u | u in p.audience :: u in o;
    assert p.challenger in q;
    assert q[..1] == [q[0]];
    assert Elements(q[..1]) == {q[0]};
    assert Everyone(p) == Elements(q[..1]) + Elements(o[..t]) == Elements(o[..t]) + {q[0]};
    assert Elements(o[..t]) !! InQueue(users, g) && {q[0]} !! InQueue(users, Opposite(g));
    hide QueueOf, InQueue, Assigned, Everyone, Elements;
    QueueDrops(users, g, 1, Elements(o[..t]));
    QueueDrops(users, Opposite(g), t, {q[0]});
  }

  lemma OneMoreAssigned(users: map<UserId, User>, done: seq<Plan>, p: Plan)
    ensures Assigned(Assigned(users, AllIn(done)), Everyone(p)) == Assigned(users, AllIn(done + [p]))
  {
    AssignedTwice(users, AllIn(done), Everyone(p));
    assert (done + [p])[..|done|] == done;
  }

  /** The room of the next plan joins those of the plans done so far. */
  lemma OneMoreRoom(c: Config, pool: map<QuestionId, Question>, done: seq<Plan>, p: Plan,
    users0: map<UserId, User>, users1: map<UserId, User>, rooms0: map<RoomId, Room>, next0: RoomId,
    rooms1: map<RoomId, Room>, rooms2: map<RoomId, Room>)
    requires RoomsAdded(c, pool, done, users0, rooms0, next0, rooms1)
    requires forall r | r in rooms0 :: r < next0
    requires users1 == Assigned(users0, AllIn(done))
    requires (forall r :: r in rooms2 <==> r in rooms1 || r == next0 + |done|) && forall r | r in rooms1 :: rooms2[r] == rooms1[r]
    requires RoomMade(c, pool, users1, p, rooms2, next0 + |done|)
    ensures RoomsAdded(c, pool, done + [p], users0, rooms0, next0, rooms2)
  {
    hide RoomMade, Assigned, AllIn;
    GenderStays(c, pool, users0, users1, AllIn(done), p, rooms2, next0 + |done|);
    var ps := done + [p];
    forall i | 0 <= i < |ps| ensures RoomMade(c, pool, users0, ps[i], rooms2, next0 + i) {
      if i < |done| {
        assert ps[i] == done[i] && next0 + i in rooms1;
        RoomStays(c, pool, users0, done[i], rooms1, rooms2, next0 + i);
      }
    }
  }

  lemma GenderStays(c: Config, pool: map<QuestionId, Question>, users0: map<UserId, User>, users1: map<UserId, User>,
    who: set<UserId>, p: Plan, rooms: map<RoomId, Room>, id: RoomId)
    requires users1 == Assigned(users0, who) && RoomMade(c, pool, users1, p, rooms, id)
    ensures RoomMade(c, pool, users0, p, rooms, id)
  {
    hide IsNewRoom;
  }

  lemma RoomStays(c: Config, pool: map<QuestionId, Question>, users: map<UserId, User>, p: Plan,
    rooms: map<RoomId, Room>, more: map<RoomId, Room>, id: RoomId)
    requires RoomMade(c, pool, users, p, rooms, id) && id in more && more[id] == rooms[id]
    ensures RoomMade(c, pool, users, p, more, id)
  {
    hide IsNewRoom;
  }

  /**
   What a pass amounts to: the number of rooms is the closed form, each queue loses exactly a prefix
   of its FIFO order, and with enough questions no further room is formable.
   */
  lemma FormationOutcome(c: Config, pool: map<QuestionId, Question>,
    users: map<UserId, User>, rooms: map<RoomId, Room>, nextRoom: RoomId,
    users': map<UserId, User>, rooms': map<RoomId, Room>, nextRoom': RoomId)
    requires Sensible(c) && Formed(c, pool, users, rooms, nextRoom, users', rooms', nextRoom')
    ensures var ps := Pass(c, pool, users);
      var m := QueueOf(users, Male); var f := QueueOf(users, Female);
      var forFemale := Enough(c, pool, Female); var forMale := Enough(c, pool, Male);
      && nextRoom' == nextRoom + |ps|
      && (forall i | 0 <= i < |ps| :: RoomMade(c, pool, users, ps[i], rooms', nextRoom + i))
      && FollowsClosedForm(ps, m, f, c.threshold, forFemale, forMale)
      && LeavesRest((QueueOf(users', Male), QueueOf(users', Female)), m, f, c.threshold, forFemale, forMale)
  {
    var m := QueueOf(users, Male);
    var f := QueueOf(users, Female);
    hide QueueOf, RoomMade, Plans, LeftOver, FollowsClosedForm, LeavesRest, Assigned, Enough;
    ClosedForm(m, f, c.threshold, Enough(c, pool, Female), Enough(c, pool, Male));
    PassLeaves(m, f, c.threshold, Enough(c, pool, Female), Enough(c, pool, Male));
  }
}
