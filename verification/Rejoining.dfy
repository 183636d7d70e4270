/** The shortest run in which somebody rejoins the queue from a game, and what it breaks. */
module Rejoining {
  import opened Domain
  import opened Ordering
  import opened Queue
  import opened Matchmaker
  import opened World
  import opened Formation
  import opened AutomaticRuns

  const SMALL := Config(1, 1, 1, 1)
  const POOL: map<QuestionId, Question> := map[0 := Question(None, true)]

  const EMPTY := World(map[], map[], map[], 0, 0)
  const HE := User(Male, UserState.Queued, Some(0))
  const SHE := User(Female, UserState.Queued, Some(0))
  const ALONE := EMPTY.(users := map[0 := HE])
  const BOTH := EMPTY.(users := map[0 := HE, 1 := SHE])

  const SEATS: map<UserId, Member> := map[
    0 := Member(Audience, Status.Active, 0, None),
    1 := Member(Challenger, Status.Active, 0, None)]
  const ROOM := Room(RoomState.Ready, 1, 0, None, [0], SEATS, [], [], [], None, [])
  const PLAYING := World(
    map[0 := HE.(state := InGame, queuedAt := None), 1 := SHE.(state := InGame, queuedAt := None)],
    map[0 := ROOM], map[], 1, 0)
  const REJOINED := PLAYING.(users := PLAYING.users[0 := HE])

  /** With no room formable a formation pass changes nothing. */
  lemma RestForms(c: Config, pool: map<QuestionId, Question>, w: World)
    requires Sensible(c) && !Formable(|InQueue(w.users, Male)|, |InQueue(w.users, Female)|, c.threshold)
    ensures Forms(c, pool, w, w)
  {
    hide QueueOf, Enough;
    assert Pass(c, pool, w.users) == [];
    assert Assigned(w.users, {}) == w.users;
  }

  lemma OnlyOneQueued(users: map<UserId, User>)
    requires users == map[0 := HE] || users == REJOINED.users
    ensures InQueue(users, Male) == {0} && InQueue(users, Female) == {}
  {
  }

  lemma ListingOfOne(at: map<UserId, Time>, u: UserId)
    requires u in at
    ensures Listing(at, {u}) == [u]
  {
    assert Listing(at, {u})[0] in {u};
  }

  lemma QueuesOfTwo()
    ensures QueueOf(BOTH.users, Male) == [0] && QueueOf(BOTH.users, Female) == [1]
  {
    assert InQueue(BOTH.users, Male) == {0};
    assert InQueue(BOTH.users, Female) == {1};
    ListingOfOne(QueueTimes(BOTH.users), 0);
    ListingOfOne(QueueTimes(BOTH.users), 1);
  }

  lemma QuestionsForTwo()
    ensures Enough(SMALL, POOL, Female) && 0 in Eligible(POOL, Female)
  {
    assert Eligible(POOL, Female) == {0};
  }

  lemma TwoMakeARoom()
    ensures Pass(SMALL, POOL, BOTH.users) == [Plan(1, [0])]
    ensures QueuesLeft(SMALL, POOL, BOTH.users) == ([], [])
  {
    QueuesOfTwo();
    QuestionsForTwo();
    hide QueueOf, Enough;
    assert [0][1..] == [] && [1][1..] == [];
    assert [0][..1] == [0];
  }

  lemma NobodyLeftQueued()
    ensures QueueOf(PLAYING.users, Male) == [] && QueueOf(PLAYING.users, Female) == []
  {
    assert InQueue(PLAYING.users, Male) == {} && InQueue(PLAYING.users, Female) == {};
  }

  lemma TheRoom()
    ensures IsNewRoom(SMALL, POOL, Female, Plan(1, [0]), ROOM)
  {
    QuestionsForTwo();
    assert Elements([0]) == {0};
    assert ROOM.members.Keys == {0, 1};
  }

  lemma TheirSeats()
    ensures AllIn([Plan(1, [0])]) == {0, 1} && Everyone(Plan(1, [0])) == {0, 1}
    ensures PLAYING.users == Assigned(BOTH.users, {0, 1})
  {
    assert Elements([0]) == {0};
    assert [Plan(1, [0])][..0] == [];
  }

  lemma OneRoomAdded()
    ensures RoomsAdded(SMALL, POOL, [Plan(1, [0])], BOTH.users, map[], 0, PLAYING.rooms)
  {
    hide IsNewRoom;
    TheRoom();
    assert RoomMade(SMALL, POOL, BOTH.users, Plan(1, [0]), PLAYING.rooms, 0);
  }

  lemma TheyPlay()
    ensures Sensible(SMALL) && Forms(SMALL, POOL, BOTH, PLAYING)
  {
    hide QueueOf, Pass, QueuesLeft, RoomsAdded, Assigned, AllIn;
    TwoMakeARoom();
    NobodyLeftQueued();
    TheirSeats();
    OneRoomAdded();
  }

  lemma PassesOfOne()
    ensures Sensible(SMALL) && Forms(SMALL, POOL, ALONE, ALONE) && Forms(SMALL, POOL, REJOINED, REJOINED)
  {
    hide Forms;
    OnlyOneQueued(ALONE.users);
    OnlyOneQueued(REJOINED.users);
    hide InQueue;
    RestForms(SMALL, POOL, ALONE);
    RestForms(SMALL, POOL, REJOINED);
  }

  /** The events, and the worlds they lead through. */
  const EVENTS := [Join(0, Male), Join(1, Female), Rejoin(0)]
  const WORLDS := [EMPTY, ALONE, PLAYING, REJOINED]

  lemma TheyJoin()
    requires Sensible(SMALL) && Forms(SMALL, POOL, ALONE, ALONE) && Forms(SMALL, POOL, BOTH, PLAYING)
    ensures Next(SMALL, POOL, EMPTY, Join(0, Male), ALONE) && Next(SMALL, POOL, ALONE, Join(1, Female), PLAYING)
  {
    hide Forms;
    assert Joined(EMPTY, 0, Male) == ALONE;
    assert Joined(ALONE, 1, Female) == BOTH;
  }

  lemma HeRejoins()
    requires Sensible(SMALL) && Forms(SMALL, POOL, REJOINED, REJOINED)
    ensures Next(SMALL, POOL, PLAYING, Rejoin(0), REJOINED)
    ensures Safe(EMPTY, Join(0, Male)) && Safe(ALONE, Join(1, Female)) && !Safe(PLAYING, Rejoin(0))
  {
    hide Forms;
    assert PLAYING.(users := Enqueued(PLAYING.users, 0, 0)) == REJOINED;
  }

  lemma TheRun()
    ensures Sensible(SMALL) && IsRun(SMALL, POOL, WORLDS, EVENTS) && IsStart(WORLDS[0])
    ensures (forall j | 0 <= j < 2 :: Safe(WORLDS[j], EVENTS[j])) && !Safe(WORLDS[2], EVENTS[2])
  {
    hide Forms, Next, Safe;
    PassesOfOne();
    TheyPlay();
    TheyJoin();
    HeRejoins();
  }

  /**
   Two people join with a threshold of one and are seated; the first of them then rejoins the queue
   from the game.  The world before is consistent, and the one after it is not.
   */
  lemma RejoiningFromAGame()
    ensures Sensible(SMALL) && IsRun(SMALL, POOL, WORLDS, EVENTS) && IsStart(WORLDS[0])
    ensures WORLDS[2].users[0].state.InGame? && EVENTS[2] == Rejoin(0)
    ensures Consistent(SMALL, WORLDS[2]) && !Consistent(SMALL, WORLDS[3])
  {
    hide IsStart, Next, Safe, Consistent;
    TheRun();
    ConsistentUntilUnsafe(SMALL, POOL, WORLDS, EVENTS, 2);
    NextConsistent(SMALL, POOL, WORLDS[2], EVENTS[2], WORLDS[3]);
  }
}
