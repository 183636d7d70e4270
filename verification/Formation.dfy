/** A formation pass in a world: its rooms start out consistent and take nobody who already has a seat. */
module Formation {
  import opened Domain
  import opened Ordering
  import opened Protocol
  import opened RoomInvariant
  import opened Effects
  import opened Queue
  import opened Matchmaker
  import opened Contacts
  import opened World

  // ----- The rooms of a pass share nobody -----

  /** Rooms of t audience members each, drawn from these people, no two rooms sharing anybody. */
  ghost predicate Apart(ps: seq<Plan>, people: set<UserId>, t: nat) {
    && (forall i | 0 <= i < |ps| :: |ps[i].audience| == t && ps[i].challenger !in ps[i].audience && Everyone(ps[i]) <= people)
    && (forall i, j | 0 <= i < j < |ps| :: Everyone(ps[i]) !! Everyone(ps[j]))
  }

  lemma ApartExtends(p: Plan, ps: seq<Plan>, people: set<UserId>, t: nat)
    requires Apart(ps, people - Everyone(p), t)
    requires |p.audience| == t && p.challenger !in p.audience && Everyone(p) <= people
    ensures Apart([p] + ps, people, t)
  {
    hide Everyone;
    var qs := [p] + ps;
    forall i, j | 0 <= i < j < |qs| ensures Everyone(qs[i]) !! Everyone(qs[j]) {
      assert qs[j] == ps[j - 1];
      if i > 0 {
        assert qs[i] == ps[i - 1];
      }
    }
  }

  lemma ApartWidens(ps: seq<Plan>, some: set<UserId>, people: set<UserId>, t: nat)
    requires Apart(ps, some, t) && some <= people
    ensures Apart(ps, people, t)
  {
    hide Everyone;
  }

  /** Taking the head of one queue and the first t of the other leaves none of them behind. */
  lemma HeadsLeave(q: seq<UserId>, o: seq<UserId>, t: nat)
    requires Distinct(q) && Distinct(o) && Elements(q) !! Elements(o)
    requires 1 <= |q| && t <= |o|
    ensures var p := Plan(q[0], o[..t]);
      && p.challenger !in p.audience && Everyone(p) <= Elements(q) + Elements(o)
      && Elements(q[1..]) + Elements(o[t..]) <= Elements(q) + Elements(o) - Everyone(p)
  {
    TailOfDistinct(q, 1);
    TailOfDistinct(o, t);
    assert q[0] in q && q[..1] == [q[0]];
    assert Elements(q[..1]) == {q[0]};
    assert forall u | u in o[..t] :: u in o;
    assert Elements(o[..t]) <= Elements(o);
    assert q[0] in Elements(q);
  }

  lemma RestStaysApart(m: seq<UserId>, f: seq<UserId>, i: nat, j: nat)
    requires Distinct(m) && Distinct(f) && Elements(m) !! Elements(f)
    requires i <= |m| && j <= |f|
    ensures Distinct(m[i..]) && Distinct(f[j..]) && Elements(m[i..]) !! Elements(f[j..])
  {
    TailOfDistinct(m, i);
    TailOfDistinct(f, j);
  }

  lemma {:induction false} PlansApart(m: seq<UserId>, f: seq<UserId>, t: nat, forFemale: bool, forMale: bool)
    requires t >= 1 && Distinct(m) && Distinct(f) && Elements(m) !! Elements(f)
    ensures Apart(Plans(m, f, t, forFemale, forMale), Elements(m) + Elements(f), t)
    decreases |m| + |f|
  {
    if |m| >= t && |f| >= 1 && forFemale {
      RestStaysApart(m, f, t, 1);
      PlansApart(m[t..], f[1..], t, forFemale, forMale);
      HeadsLeave(f, m, t);
      NextApart(m, f, t, Plan(f[0], m[..t]), m[t..], f[1..], Plans(m[t..], f[1..], t, forFemale, forMale));
    } else if !(|m| >= t && |f| >= 1) && |f| >= t && |m| >= 1 && forMale {
      RestStaysApart(m, f, 1, t);
      PlansApart(m[1..], f[t..], t, forFemale, forMale);
      HeadsLeave(m, f, t);
      NextApart(m, f, t, Plan(m[0], f[..t]), m[1..], f[t..], Plans(m[1..], f[t..], t, forFemale, forMale));
    }
  }

  lemma NextApart(m: seq<UserId>, f: seq<UserId>, t: nat, p: Plan, m': seq<UserId>, f': seq<UserId>, ps: seq<Plan>)
    requires |p.audience| == t && p.challenger !in p.audience && Everyone(p) <= Elements(m) + Elements(f)
    requires Elements(m') + Elements(f') <= Elements(m) + Elements(f) - Everyone(p)
    requires Apart(ps, Elements(m') + Elements(f'), t)
    ensures Apart([p] + ps, Elements(m) + Elements(f), t)
  {
    hide Elements, Everyone;
    var people := Elements(m) + Elements(f);
    ApartWidens(ps, Elements(m') + Elements(f'), people - Everyone(p), t);
    ApartExtends(p, ps, people, t);
  }

  lemma QueueDistinct(users: map<UserId, User>, g: Gender)
    ensures Distinct(QueueOf(users, g)) && Elements(QueueOf(users, g)) == InQueue(users, g)
  {
    var q := QueueOf(users, g);
    hide Listing;
    forall i, j | 0 <= i < j < |q| ensures q[i] != q[j] {
      ListingDistinct(QueueTimes(users), InQueue(users, g), i, j);
    }
  }

  /** The rooms of a pass take queued people only, and nobody twice. */
  lemma PassApart(c: Config, pool: map<QuestionId, Question>, users: map<UserId, User>)
    requires Sensible(c)
    ensures Apart(Pass(c, pool, users), InQueue(users, Male) + InQueue(users, Female), c.threshold)
  {
    QueueDistinct(users, Male);
    QueueDistinct(users, Female);
    QueuesDisjoint(users);
    hide QueueOf, InQueue, Plans, Enough, Distinct;
    PlansApart(QueueOf(users, Male), QueueOf(users, Female), c.threshold, Enough(c, pool, Female), Enough(c, pool, Male));
  }

  /** A challenger from one queue, an audience from the other. */
  ghost predicate Mixed(p: Plan, m: seq<UserId>, f: seq<UserId>) {
    || (p.challenger in f && forall u | u in p.audience :: u in m)
    || (p.challenger in m && forall u | u in p.audience :: u in f)
  }

  lemma MixedWidens(ps: seq<Plan>, m: seq<UserId>, f: seq<UserId>, i: nat, j: nat)
    requires i <= |m| && j <= |f| && forall p | p in ps :: Mixed(p, m[i..], f[j..])
    ensures forall p | p in ps :: Mixed(p, m, f)
  {
    assert forall u | u in m[i..] :: u in m;
    assert forall u | u in f[j..] :: u in f;
  }

  lemma {:induction false} PlansMixed(m: seq<UserId>, f: seq<UserId>, t: nat, forFemale: bool, forMale: bool)
    requires t >= 1
    ensures forall p | p in Plans(m, f, t, forFemale, forMale) :: Mixed(p, m, f)
    decreases |m| + |f|
  {
    if |m| >= t && |f| >= 1 {
      if forFemale {
        PlansMixed(m[t..], f[1..], t, forFemale, forMale);
        MixedWidens(Plans(m[t..], f[1..], t, forFemale, forMale), m, f, t, 1);
        assert Mixed(Plan(f[0], m[..t]), m, f);
      }
    } else if |f| >= t && |m| >= 1 && forMale {
      PlansMixed(m[1..], f[t..], t, forFemale, forMale);
      MixedWidens(Plans(m[1..], f[t..], t, forFemale, forMale), m, f, 1, t);
      assert Mixed(Plan(m[0], f[..t]), m, f);
    }
  }

  /** Every room of a pass puts a challenger of one gender before an audience of the other, all of them queued. */
  lemma RolesAreOpposite(c: Config, pool: map<QuestionId, Question>, users: map<UserId, User>, i: nat)
    requires Sensible(c) && i < |Pass(c, pool, users)|
    ensures var p := Pass(c, pool, users)[i];
      && p.challenger in users && users[p.challenger].state.Queued?
      && (forall u | u in p.audience ::
            u in users && users[u].state.Queued? && users[u].gender != users[p.challenger].gender)
  {
    var m, f := QueueOf(users, Male), QueueOf(users, Female);
    WhoIsQueued(users, Male);
    WhoIsQueued(users, Female);
    hide QueueOf, InQueue, Plans, Enough;
    PlansMixed(m, f, c.threshold, Enough(c, pool, Female), Enough(c, pool, Male));
    assert Mixed(Pass(c, pool, users)[i], m, f);
  }

  lemma {:induction false} InSome(ps: seq<Plan>, u: UserId)
    ensures u in AllIn(ps) <==> exists i :: 0 <= i < |ps| && u in Everyone(ps[i])
  {
    if ps != [] {
      var n := |ps| - 1;
      InSome(ps[..n], u);
      if u in AllIn(ps[..n]) {
        var i :| 0 <= i < n && u in Everyone(ps[..n][i]);
        assert u in Everyone(ps[i]);
      }
      if i :| 0 <= i < |ps| && u in Everyone(ps[i]) && i < n {
        assert u in Everyone(ps[..n][i]);
      }
    }
  }

  // ----- New rooms in a consistent world -----

  /** A room nobody has acted in yet, with exactly these people in it. */
  ghost predicate Opens(c: Config, r: Room, p: Plan) {
    && RoomInv(c, r, None) && r.state.Ready? && r.pairing.None? && r.members.Keys == Everyone(p)
    && forall u | u in Everyone(p) :: r.members[u].leftAt.None?
  }

  lemma NewRoomOpens(c: Config, pool: map<QuestionId, Question>, g: Gender, p: Plan, r: Room)
    requires Sensible(c) && IsNewRoom(c, pool, g, p, r) && |p.audience| >= 1 && p.challenger !in p.audience
    ensures Opens(c, r, p) && Panel(r) == Elements(p.audience)
  {
    assert Panel(r) == Elements(p.audience);
    assert p.audience[0] in Panel(r);
    assert Roster(c, r);
    hide Roster, Panel, Elements;
  }

  ghost predicate Forms(c: Config, pool: map<QuestionId, Question>, w: World, v: World)
    requires Sensible(c)
  {
    && Formed(c, pool, w.users, w.rooms, w.nextRoom, v.users, v.rooms, v.nextRoom)
    && v.timers == w.timers && v.now == w.now
  }

  /** New rooms for these plans beside the ones there were. */
  ghost predicate RoomsJoin(c: Config, w: World, v: World, ps: seq<Plan>) {
    && v.timers == w.timers && v.nextRoom == w.nextRoom + |ps| && v.users == Assigned(w.users, AllIn(ps))
    && (forall r :: r in v.rooms <==> r in w.rooms || w.nextRoom <= r < w.nextRoom + |ps|)
    && (forall r | r in w.rooms :: v.rooms[r] == w.rooms[r])
    && (forall i | 0 <= i < |ps| :: w.nextRoom + i in v.rooms && Opens(c, v.rooms[w.nextRoom + i], ps[i]))
    && Apart(ps, InQueue(w.users, Male) + InQueue(w.users, Female), c.threshold)
  }

  lemma FormsJoins(c: Config, pool: map<QuestionId, Question>, w: World, v: World)
    requires Sensible(c) && Forms(c, pool, w, v)
    ensures RoomsJoin(c, w, v, Pass(c, pool, w.users))
  {
    hide Opens, Pass, InQueue, Everyone, Assigned, AllIn, QueueOf, QueuesLeft, Apart, RoomMade;
    var ps := Pass(c, pool, w.users);
    PassApart(c, pool, w.users);
    forall i | 0 <= i < |ps| ensures w.nextRoom + i in v.rooms && Opens(c, v.rooms[w.nextRoom + i], ps[i]) {
      assert RoomMade(c, pool, w.users, ps[i], v.rooms, w.nextRoom + i);
      MadeOpens(c, pool, w.users, ps, i, v.rooms, w.nextRoom + i);
    }
  }

  lemma MadeOpens(c: Config, pool: map<QuestionId, Question>, users: map<UserId, User>, ps: seq<Plan>, i: nat,
    rooms: map<RoomId, Room>, id: RoomId)
    requires Sensible(c) && i < |ps| && RoomMade(c, pool, users, ps[i], rooms, id)
    requires Apart(ps, InQueue(users, Male) + InQueue(users, Female), c.threshold)
    ensures id in rooms && Opens(c, rooms[id], ps[i])
  {
    hide Opens, IsNewRoom, InQueue, Everyone;
    NewRoomOpens(c, pool, users[ps[i].challenger].gender, ps[i], rooms[id]);
  }

  /** Whoever is queued has no open row anywhere. */
  lemma QueuedHaveNoSeat(c: Config, w: World, u: UserId, r: RoomId)
    requires Consistent(c, w) && u in w.users && w.users[u].state.Queued? && r in w.rooms
    ensures !Open(w.rooms[r], u)
  {
    hide RoomFits, UserFits, Open;
    assert Open(w.rooms[r], u) ==> SeatState(w.rooms[r], w.users[u].state);
  }

  lemma PlanMember(c: Config, w: World, v: World, ps: seq<Plan>, i: nat, u: UserId)
    requires RoomsJoin(c, w, v, ps) && i < |ps| && u in Everyone(ps[i])
    ensures u in w.users && w.users[u].state.Queued? && u in AllIn(ps)
  {
    InSome(ps, u);
    hide Opens, Everyone, AllIn, Assigned;
    assert Everyone(ps[i]) <= InQueue(w.users, Male) + InQueue(w.users, Female);
  }

  /** Every open row is either an old one, or belongs to the plan of its new room. */
  lemma SeatIs(c: Config, w: World, v: World, ps: seq<Plan>, r: RoomId, u: UserId)
    requires RoomsJoin(c, w, v, ps) && r in v.rooms && Open(v.rooms[r], u)
    ensures r in w.rooms ==> v.rooms[r] == w.rooms[r]
    ensures r !in w.rooms ==>
      w.nextRoom <= r < w.nextRoom + |ps| && u in Everyone(ps[r - w.nextRoom]) && v.rooms[r].state.Ready?
  {
    hide RoomInv, Everyone, AllIn, Assigned, Apart;
    if r !in w.rooms {
      var i := r - w.nextRoom;
      assert Opens(c, v.rooms[w.nextRoom + i], ps[i]);
    }
  }

  lemma OldSeatsKeepTheirUsers(c: Config, w: World, v: World, ps: seq<Plan>, r: RoomId, u: UserId)
    requires Consistent(c, w) && RoomsJoin(c, w, v, ps) && r in w.rooms && Open(w.rooms[r], u) && u in w.users
    ensures u !in AllIn(ps) && v.users[u] == w.users[u]
  {
    hide Opens, Everyone, Open, Apart, Consistent;
    if u in AllIn(ps) {
      InSome(ps, u);
      var i :| 0 <= i < |ps| && u in Everyone(ps[i]);
      PlanMember(c, w, v, ps, i, u);
      QueuedHaveNoSeat(c, w, u, r);
    }
  }

  lemma JoinedRoomsFit(c: Config, w: World, v: World, ps: seq<Plan>)
    requires Consistent(c, w) && RoomsJoin(c, w, v, ps)
    ensures v.timers.Keys <= v.rooms.Keys && forall r | r in v.rooms :: RoomFits(c, v, r)
  {
    hide RoomInv, ExchangeInv, UserFits, Open, SeatState, Everyone, AllIn, Apart;
    forall r | r in v.rooms ensures RoomFits(c, v, r) {
      if r in w.rooms {
        assert RoomFits(c, w, r);
      } else {
        NewRoomFits(c, w, v, ps, r - w.nextRoom);
      }
    }
  }

  lemma NewRoomFits(c: Config, w: World, v: World, ps: seq<Plan>, i: nat)
    requires Consistent(c, w) && RoomsJoin(c, w, v, ps) && i < |ps| && w.nextRoom + i !in w.rooms
    ensures w.nextRoom + i in v.rooms && RoomFits(c, v, w.nextRoom + i)
  {
    hide RoomInv, ExchangeInv, UserFits, Open, SeatState, Everyone, AllIn, RoomFits;
    var r := w.nextRoom + i;
    assert Opens(c, v.rooms[r], ps[i]);
    forall u | u in Everyone(ps[i]) ensures u in w.users {
      PlanMember(c, w, v, ps, i, u);
    }
    assert r !in v.timers;
    NewRoomFitsIf(c, v, r, ps[i]);
  }

  lemma NewRoomFitsIf(c: Config, v: World, r: RoomId, p: Plan)
    requires r in v.rooms && Opens(c, v.rooms[r], p) && r !in v.timers && Everyone(p) <= v.users.Keys && r < v.nextRoom
    ensures RoomFits(c, v, r)
  {
    hide RoomInv, Everyone;
  }

  lemma JoinedSeatsUnique(c: Config, w: World, v: World, ps: seq<Plan>, p: RoomId, q: RoomId, u: UserId)
    requires Consistent(c, w) && RoomsJoin(c, w, v, ps)
    requires p in v.rooms && q in v.rooms && Open(v.rooms[p], u) && Open(v.rooms[q], u)
    ensures p == q
  {
    hide Consistent, RoomsJoin, Open, Everyone;
    SeatIs(c, w, v, ps, p, u);
    SeatIs(c, w, v, ps, q, u);
    if p in w.rooms && q in w.rooms {
      OldSeatsUnique(c, w, p, q, u);
    } else if p in w.rooms {
      NewSeatIsOnly(c, w, v, ps, q, p, u);
    } else if q in w.rooms {
      NewSeatIsOnly(c, w, v, ps, p, q, u);
    } else {
      NewSeatsUnique(c, w, v, ps, p - w.nextRoom, q - w.nextRoom, u);
    }
  }

  lemma OldSeatsUnique(c: Config, w: World, p: RoomId, q: RoomId, u: UserId)
    requires Consistent(c, w) && p in w.rooms && q in w.rooms && Open(w.rooms[p], u) && Open(w.rooms[q], u)
    ensures p == q
  {
  }

  lemma NewSeatsUnique(c: Config, w: World, v: World, ps: seq<Plan>, i: nat, j: nat, u: UserId)
    requires RoomsJoin(c, w, v, ps) && i < |ps| && j < |ps| && u in Everyone(ps[i]) && u in Everyone(ps[j])
    ensures i == j
  {
    hide Opens, Everyone;
    PlansShareNobody(ps, InQueue(w.users, Male) + InQueue(w.users, Female), c.threshold, i, j, u);
  }

  /** Nobody who is in a new room has a row open in an old one. */
  lemma NewSeatIsOnly(c: Config, w: World, v: World, ps: seq<Plan>, p: RoomId, q: RoomId, u: UserId)
    requires Consistent(c, w) && RoomsJoin(c, w, v, ps)
    requires w.nextRoom <= p < w.nextRoom + |ps| && u in Everyone(ps[p - w.nextRoom])
    requires q in w.rooms
    ensures !Open(w.rooms[q], u)
  {
    hide Consistent, RoomsJoin, Open, Everyone;
    PlanMember(c, w, v, ps, p - w.nextRoom, u);
    QueuedHaveNoSeat(c, w, u, q);
  }

  lemma PlansShareNobody(ps: seq<Plan>, people: set<UserId>, t: nat, i: nat, j: nat, u: UserId)
    requires Apart(ps, people, t) && i < |ps| && j < |ps| && u in Everyone(ps[i]) && u in Everyone(ps[j])
    ensures i == j
  {
    hide Everyone;
    assert forall a, b | 0 <= a < b < |ps| :: u !in Everyone(ps[a]) || u !in Everyone(ps[b]);
  }

  lemma JoinedSeatTells(c: Config, w: World, v: World, ps: seq<Plan>, r: RoomId, u: UserId)
    requires Consistent(c, w) && RoomsJoin(c, w, v, ps)
    requires r in v.rooms && u in v.users && Open(v.rooms[r], u)
    ensures SeatState(v.rooms[r], v.users[u].state)
  {
    hide Consistent, Open, AllIn, Everyone, Opens, Apart;
    SeatIs(c, w, v, ps, r, u);
    if r in w.rooms {
      OldSeatsKeepTheirUsers(c, w, v, ps, r, u);
      SeatTells(c, w, r, u);
    } else {
      PlanMember(c, w, v, ps, r - w.nextRoom, u);
    }
  }

  lemma SeatTells(c: Config, w: World, r: RoomId, u: UserId)
    requires Consistent(c, w) && r in w.rooms && u in w.users && Open(w.rooms[r], u)
    ensures SeatState(w.rooms[r], w.users[u].state)
  {
  }

  lemma JoinedUserFits(c: Config, w: World, v: World, ps: seq<Plan>, u: UserId)
    requires Consistent(c, w) && RoomsJoin(c, w, v, ps) && u in w.users
    ensures u in v.users && UserFits(v, u)
  {
    InSome(ps, u);
    hide AllIn, Everyone, RoomFits, Apart, RoomInv, SeatState;
    assert UserFits(w, u);
    if u in AllIn(ps) {
      var i :| 0 <= i < |ps| && u in Everyone(ps[i]);
      assert Opens(c, v.rooms[w.nextRoom + i], ps[i]);
      assert Open(v.rooms[w.nextRoom + i], u);
    } else if Engaged(w.users[u].state) {
      var q :| q in w.rooms && Open(w.rooms[q], u);
      assert q in v.rooms && Open(v.rooms[q], u);
    }
  }

  /** A formation pass keeps the world consistent. */
  lemma FormationConsistent(c: Config, pool: map<QuestionId, Question>, w: World, v: World)
    requires Sensible(c) && Consistent(c, w) && Forms(c, pool, w, v)
    ensures Consistent(c, v)
  {
    hide RoomFits, UserFits, SeatState, Open, Pass, RoomsJoin, Forms, Consistent;
    var ps := Pass(c, pool, w.users);
    FormsJoins(c, pool, w, v);
    JoinedRoomsFit(c, w, v, ps);
    JoinedUsersFit(c, w, v, ps);
    JoinedSeatsTell(c, w, v, ps);
    forall r, q, u | r in v.rooms && q in v.rooms && Open(v.rooms[r], u) && Open(v.rooms[q], u) ensures r == q {
      JoinedSeatsUnique(c, w, v, ps, r, q, u);
    }
    ConsistentIf(c, v);
  }

  lemma JoinedUsersFit(c: Config, w: World, v: World, ps: seq<Plan>)
    requires Consistent(c, w) && RoomsJoin(c, w, v, ps)
    ensures forall u | u in v.users :: UserFits(v, u)
  {
    hide Consistent, UserFits, Opens, Apart, AllIn;
    forall u | u in v.users ensures UserFits(v, u) {
      JoinedUserFits(c, w, v, ps, u);
    }
  }

  lemma JoinedSeatsTell(c: Config, w: World, v: World, ps: seq<Plan>)
    requires Consistent(c, w) && RoomsJoin(c, w, v, ps)
    ensures forall r, u | r in v.rooms && u in v.users && Open(v.rooms[r], u) :: SeatState(v.rooms[r], v.users[u].state)
  {
    hide Consistent, RoomsJoin, SeatState, Open;
    forall r, u | r in v.rooms && u in v.users && Open(v.rooms[r], u) ensures SeatState(v.rooms[r], v.users[u].state) {
      JoinedSeatTells(c, w, v, ps, r, u);
    }
  }

  lemma ConsistentIf(c: Config, w: World)
    requires w.timers.Keys <= w.rooms.Keys
    requires forall r | r in w.rooms :: RoomFits(c, w, r)
    requires forall u | u in w.users :: UserFits(w, u)
    requires forall r, u | r in w.rooms && u in w.users && Open(w.rooms[r], u) :: SeatState(w.rooms[r], w.users[u].state)
    requires forall r, q, u | r in w.rooms && q in w.rooms && Open(w.rooms[r], u) && Open(w.rooms[q], u) :: r == q
    ensures Consistent(c, w)
  {
    hide RoomFits, UserFits, Open, SeatState;
  }
}
