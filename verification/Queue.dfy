/** The two gender queues and the rooms that one pass of room formation makes out of them. */
module Queue {
  import opened Domain
  import opened Ordering

  // ----- Queues as queries over the users table -----

  /** The sort key of the queue query; a missing timestamp sorts first. */
  function QueueKey(u: User): Time {
    if u.queuedAt.None? then 0 else u.queuedAt.value + 1
  }

  function QueueTimes(users: map<UserId, User>): map<UserId, Time> {
    map u | u in users :: QueueKey(users[u])
  }

  function InQueue(users: map<UserId, User>, g: Gender): set<UserId> {
    set u | u in users && users[u].gender == g && users[u].state.Queued?
  }

  /** get_users: the queued users of a gender in FIFO order. */
  ghost function QueueOf(users: map<UserId, User>, g: Gender): (q: seq<UserId>)
    ensures |q| == |InQueue(users, g)|
    ensures forall u :: u in q <==> u in InQueue(users, g)
  {
    Listing(QueueTimes(users), InQueue(users, g))
  }

  /** Exactly the queued users of the gender are in the queue. */
  lemma WhoIsQueued(users: map<UserId, User>, g: Gender)
    ensures forall u :: u in QueueOf(users, g) <==> u in users && users[u].gender == g && users[u].state == UserState.Queued
  {
    hide Listing;
  }

  /** First come, first served: of two queued users the one who entered earlier stands first, and of two who entered at once the one with the smaller id. */
  lemma QueueIsFifo(users: map<UserId, User>, g: Gender, i: nat, j: nat)
    requires i < |QueueOf(users, g)| && j < |QueueOf(users, g)|
    requires var q := QueueOf(users, g); q[i] in users && q[j] in users && users[q[i]].queuedAt.Some? && users[q[j]].queuedAt.Some?
    ensures var q := QueueOf(users, g); var u := users[q[i]].queuedAt.value; var v := users[q[j]].queuedAt.value;
      i < j <==> u < v || (u == v && q[i] < q[j])
  {
    var q := QueueOf(users, g);
    var at := QueueTimes(users);
    assert i < j ==> Before(at, q[i], q[j]);
    assert j < i ==> Before(at, q[j], q[i]);
  }

  /** Whoever enters later than everybody in the queue comes out last. */
  lemma LateComersWait(users: map<UserId, User>, u: UserId, now: Time)
    requires u in users && !users[u].state.Queued?
    requires forall v | v in users && users[v].gender == users[u].gender && users[v].state.Queued? :: (
      users[v].queuedAt.Some? ==> users[v].queuedAt.value < now)
    ensures var g := users[u].gender; QueueOf(Enqueued(users, u, now), g) == QueueOf(users, g) + [u]
    ensures forall g | g != users[u].gender :: QueueOf(Enqueued(users, u, now), g) == QueueOf(users, g)
  {
    var later := Enqueued(users, u, now);
    var g := users[u].gender;
    var q := QueueOf(users, g) + [u];
    forall i, j | 0 <= i < j < |q| ensures q[i] in later && q[j] in later && Before(QueueTimes(later), q[i], q[j]) {
      assert q[i] in InQueue(users, g);
      assert j < |q| - 1 ==> q[j] in InQueue(users, g) && Before(QueueTimes(users), q[i], q[j]);
    }
    assert InQueue(later, g) == InQueue(users, g) + {u};
    ListingIsUnique(QueueTimes(later), InQueue(later, g), q);
    OtherQueueStays(users, u, now);
  }

  lemma OtherQueueStays(users: map<UserId, User>, u: UserId, now: Time)
    requires u in users
    ensures forall g | g != users[u].gender :: QueueOf(Enqueued(users, u, now), g) == QueueOf(users, g)
  {
    var later := Enqueued(users, u, now);
    forall g | g != users[u].gender ensures QueueOf(later, g) == QueueOf(users, g) {
      assert InQueue(later, g) == InQueue(users, g);
      ListingAgrees(QueueTimes(users), QueueTimes(later), InQueue(users, g));
    }
  }

  /** A user at the end of their queue. */
  function Enqueued(users: map<UserId, User>, u: UserId, now: Time): map<UserId, User>
    requires u in users
  {
    users[u := users[u].(state := UserState.Queued, queuedAt := Some(now))]
  }

  /** A user waiting outside the queue. */
  function Dequeued(users: map<UserId, User>, u: UserId): map<UserId, User>
    requires u in users
  {
    users[u := users[u].(state := UserState.Waiting, queuedAt := None)]
  }

  /** Users taken out of the queue and into a room. */
  function Assigned(users: map<UserId, User>, who: set<UserId>): map<UserId, User> {
    map u | u in users ::
      if u in who then users[u].(state := UserState.InGame, queuedAt := None) else users[u]
  }

  lemma AssignedTwice(users: map<UserId, User>, a: set<UserId>, b: set<UserId>)
    ensures Assigned(Assigned(users, a), b) == Assigned(users, a + b)
  {
  }

  /** Assigning some of a queue, and people of the other one, leaves the rest of the queue. */
  lemma QueueAfter(users: map<UserId, User>, g: Gender, gone: set<UserId>, others: set<UserId>)
    requires gone <= InQueue(users, g) && others !! InQueue(users, g)
    ensures QueueOf(Assigned(users, gone + others), g) == Listing(QueueTimes(users), InQueue(users, g) - gone)
  {
    var after := Assigned(users, gone + others);
    var rest := InQueue(users, g) - gone;
    assert InQueue(after, g) == rest;
    assert forall u | u in rest :: after[u] == users[u];
    ListingAgrees(QueueTimes(users), QueueTimes(after), rest);
  }

  /** Taking a prefix of a queue leaves the rest of it, in order. */
  lemma QueueDrops(users: map<UserId, User>, g: Gender, k: nat, others: set<UserId>)
    requires k <= |QueueOf(users, g)|
    requires others !! InQueue(users, g)
    ensures QueueOf(Assigned(users, Elements(QueueOf(users, g)[..k]) + others), g) == QueueOf(users, g)[k..]
  {
    ListingDrops(QueueTimes(users), InQueue(users, g), k);
    hide Listing, Elements, Assigned, InQueue;
    QueueAfter(users, g, Elements(QueueOf(users, g)[..k]), others);
  }

  /** The two queues have nobody in common. */
  lemma QueuesDisjoint(users: map<UserId, User>)
    ensures InQueue(users, Male) !! InQueue(users, Female)
  {
  }

  // ----- One pass of room formation -----

  datatype Plan = Plan(challenger: UserId, audience: seq<UserId>)

  /** `forFemale` and `forMale` say whether there are enough questions for a challenger of that gender. */
  ghost function Plans(m: seq<UserId>, f: seq<UserId>, t: nat, forFemale: bool, forMale: bool): seq<Plan>
    requires t >= 1
    decreases |m| + |f|
  {
    if |m| >= t && |f| >= 1 then
      if forFemale then [Plan(f[0], m[..t])] + Plans(m[t..], f[1..], t, forFemale, forMale) else []
    else if |f| >= t && |m| >= 1 then
      if forMale then [Plan(m[0], f[..t])] + Plans(m[1..], f[t..], t, forFemale, forMale) else []
    else []
  }

  predicate Formable(m: nat, f: nat, t: nat) {
    (m >= t && f >= 1) || (f >= t && m >= 1)
  }

  function Min(a: int, b: int): int {
    if a <= b then a else b
  }

  /** a * t, by repeated addition. */
  function Times(a: nat, t: nat): nat {
    if a == 0 then 0 else Times(a - 1, t) + t
  }

  /** m / t, by repeated subtraction. */
  function Quotient(m: nat, t: nat): nat
    requires t >= 1
  {
    if m < t then 0 else Quotient(m - t, t) + 1
  }

  lemma {:induction false} TimesIsProduct(a: nat, t: nat)
    ensures Times(a, t) == a * t
  {
    if a > 0 {
      TimesIsProduct(a - 1, t);
      assert a * t == (a - 1) * t + t;
    }
  }

  lemma {:induction false} QuotientIsDivision(m: nat, t: nat)
    requires t >= 1
    ensures Quotient(m, t) == m / t
  {
    if m < t {
      DivUnique(m, t, 0);
    } else {
      QuotientIsDivision(m - t, t);
      var q := (m - t) / t;
      assert q * t <= m - t < q * t + t;
      assert (q + 1) * t == q * t + t;
      DivUnique(m, t, q + 1);
    }
  }

  lemma DivUnique(x: nat, t: nat, q: nat)
    requires t >= 1 && q * t <= x < q * t + t
    ensures x / t == q
  {
    var d := x / t;
    assert d * t <= x < d * t + t;
    if d > q {
      MulLe(q + 1, d, t);
    } else if d < q {
      MulLe(d + 1, q, t);
    }
  }

  lemma MulLe(a: nat, b: nat, t: nat)
    requires a <= b
    ensures a * t <= b * t
  {
  }

  /** Rooms with a female challenger. */
  function FemaleRooms(m: nat, f: nat, t: nat): nat
    requires t >= 1
  {
    Min(Quotient(m, t), f)
  }

  lemma {:induction false} FitsIn(m: nat, t: nat, a: nat)
    requires t >= 1 && a <= Quotient(m, t)
    ensures Times(a, t) <= m
  {
    if a > 0 {
      FitsIn(m - t, t, a - 1);
    }
  }

  /** Rooms with a male challenger, formed from what the female-challenger rooms leave. */
  function MaleRooms(m: nat, f: nat, t: nat): (b: nat)
    requires t >= 1
  {
    var a := FemaleRooms(m, f, t);
    FitsIn(m, t, a);
    Min(Quotient(f - a, t), m - Times(a, t))
  }

  /** The i-th room of a pass: first the female-challenger rooms, then the male-challenger ones. */
  ghost predicate IsRoomAt(p: Plan, m: seq<UserId>, f: seq<UserId>, t: nat, a: nat, i: nat) {
    if i < a then
      && i < |f| && Times(i, t) <= Times(i + 1, t) <= |m|
      && p == Plan(f[i], m[Times(i, t)..Times(i + 1, t)])
    else
      var j := i - a;
      && Times(a, t) + j < |m| && a + Times(j, t) <= a + Times(j + 1, t) <= |f|
      && p == Plan(m[Times(a, t) + j], f[a + Times(j, t)..a + Times(j + 1, t)])
  }

  /** How many rooms of each kind a pass makes when questions may run short. */
  function FemaleMade(m: nat, f: nat, t: nat, forFemale: bool): nat
    requires t >= 1
  {
    if forFemale then FemaleRooms(m, f, t) else 0
  }

  /** A shortage for female challengers stops the pass while such a room is still formable. */
  function MaleMade(m: nat, f: nat, t: nat, forFemale: bool, forMale: bool): nat
    requires t >= 1
  {
    if forMale && (forFemale || FemaleRooms(m, f, t) == 0) then MaleRooms(m, f, t) else 0
  }

  /** The closed form in ordinary arithmetic. */
  lemma RoomCounts(m: nat, f: nat, t: nat)
    requires t >= 1
    ensures var a := FemaleRooms(m, f, t);
      a == Min(m / t, f) && a * t <= m && MaleRooms(m, f, t) == Min((f - a) / t, m - a * t)
  {
    var a := FemaleRooms(m, f, t);
    QuotientIsDivision(m, t);
    FitsIn(m, t, a);
    TimesIsProduct(a, t);
    QuotientIsDivision(f - a, t);
  }

  /** The second phase: too few males for a female-challenger room, or no female at all. */
  lemma {:induction false} MalePhase(m: seq<UserId>, f: seq<UserId>, t: nat, forFemale: bool, forMale: bool)
    requires t >= 1 && (|m| < t || |f| == 0)
    ensures var ps := Plans(m, f, t, forFemale, forMale);
      && |ps| == (if forMale then Min(Quotient(|f|, t), |m|) else 0)
      && forall i | 0 <= i < |ps| :: IsRoomAt(ps[i], m, f, t, 0, i)
    decreases |m|
  {
    if |f| >= t && |m| >= 1 && forMale {
      MalePhase(m[1..], f[t..], t, forFemale, forMale);
      var ps := Plans(m, f, t, forFemale, forMale);
      var rest := Plans(m[1..], f[t..], t, forFemale, forMale);
      assert ps == [Plan(m[0], f[..t])] + rest;
      hide Plans;
      FirstMaleRoom(m, f, t);
      forall i | 0 < i < |ps| ensures IsRoomAt(ps[i], m, f, t, 0, i) {
        MaleRoomShifts(rest[i - 1], m, f, t, i);
      }
    }
  }

  lemma FirstMaleRoom(m: seq<UserId>, f: seq<UserId>, t: nat)
    requires |f| >= t && |m| >= 1
    ensures IsRoomAt(Plan(m[0], f[..t]), m, f, t, 0, 0)
  {
    assert Times(1, t) == t;
  }

  lemma MaleRoomShifts(p: Plan, m: seq<UserId>, f: seq<UserId>, t: nat, i: nat)
    requires |f| >= t && |m| >= 1 && i >= 1 && IsRoomAt(p, m[1..], f[t..], t, 0, i - 1)
    ensures IsRoomAt(p, m, f, t, 0, i)
  {
    var x, y := Times(i - 1, t), Times(i, t);
    assert Times(i + 1, t) == y + t && y == x + t;
    SliceOfTail(f, t, x, y);
  }

  lemma SliceOfTail<T>(s: seq<T>, k: nat, x: nat, y: nat)
    requires k <= |s| && x <= y <= |s| - k
    ensures s[k..][x..y] == s[k + x..k + y]
  {
  }

  /** What a pass leaves of the two queues. */
  ghost function LeftOver(m: seq<UserId>, f: seq<UserId>, t: nat, forFemale: bool, forMale: bool): (seq<UserId>, seq<UserId>)
    requires t >= 1
    decreases |m| + |f|
  {
    if |m| >= t && |f| >= 1 then
      if forFemale then LeftOver(m[t..], f[1..], t, forFemale, forMale) else (m, f)
    else if |f| >= t && |m| >= 1 then
      if forMale then LeftOver(m[1..], f[t..], t, forFemale, forMale) else (m, f)
    else (m, f)
  }

  lemma {:induction false} MalePhaseLeaves(m: seq<UserId>, f: seq<UserId>, t: nat, forFemale: bool, forMale: bool)
    requires t >= 1 && (|m| < t || |f| == 0)
    ensures var b := if forMale then Min(Quotient(|f|, t), |m|) else 0;
      && Times(b, t) <= |f| && LeftOver(m, f, t, forFemale, forMale) == (m[b..], f[Times(b, t)..])
      && (forMale ==> !Formable(|m| - b, |f| - Times(b, t), t))
    decreases |m|
  {
    if |f| >= t && |m| >= 1 && forMale {
      MalePhaseLeaves(m[1..], f[t..], t, forFemale, forMale);
      var b := Min(Quotient(|f|, t), |m|);
      assert m[1..][b - 1..] == m[b..];
      assert f[t..][Times(b - 1, t)..] == f[Times(b, t)..];
    }
  }

  lemma OneFemaleRoom(m: nat, f: nat, t: nat)
    requires t >= 1 && m >= t && f >= 1
    ensures FemaleRooms(m, f, t) == FemaleRooms(m - t, f - 1, t) + 1
    ensures MaleRooms(m, f, t) == MaleRooms(m - t, f - 1, t)
  {
  }

  lemma FirstFemaleRoom(m: seq<UserId>, f: seq<UserId>, t: nat, a: nat)
    requires |m| >= t && |f| >= 1 && a >= 1
    ensures IsRoomAt(Plan(f[0], m[..t]), m, f, t, a, 0)
  {
    assert Times(1, t) == t;
  }

  lemma RoomAtShifts(p: Plan, m: seq<UserId>, f: seq<UserId>, t: nat, a: nat, i: nat)
    requires a >= 1 && i >= 1 && |m| >= t && |f| >= 1
    requires IsRoomAt(p, m[t..], f[1..], t, a - 1, i - 1)
    ensures IsRoomAt(p, m, f, t, a, i)
  {
    if i < a {
      var x, y := Times(i - 1, t), Times(i, t);
      assert Times(i + 1, t) == y + t && y == x + t;
      SliceOfTail(m, t, x, y);
    } else {
      var j := i - a;
      var x, y := Times(j, t), Times(j + 1, t);
      assert Times(a, t) == Times(a - 1, t) + t;
      SliceOfTail(f, 1, a - 1 + x, a - 1 + y);
    }
  }

  /**
   The closed form of a pass: it makes min(m/t, f) female-challenger rooms, then
   min((f-a)/t, m-a*t) male-challenger rooms, each from the next consecutive, disjoint segments of
   the two queues in FIFO order.  A shortage of questions for one kind of challenger stops the pass
   at the first room of that kind.
   */
  lemma {:induction false} ClosedForm(m: seq<UserId>, f: seq<UserId>, t: nat, forFemale: bool, forMale: bool)
    requires t >= 1
    ensures FollowsClosedForm(Plans(m, f, t, forFemale, forMale), m, f, t, forFemale, forMale)
    decreases |m| + |f|
  {
    hide FollowsClosedForm;
    if |m| < t || |f| == 0 {
      SecondPhaseOnly(m, f, t, forFemale, forMale);
    } else if forFemale {
      ClosedForm(m[t..], f[1..], t, forFemale, forMale);
      ClosedFormShifts(Plans(m[t..], f[1..], t, forFemale, forMale), m, f, t, forMale);
    } else {
      ShortForFemales(m, f, t, forMale);
    }
  }

  ghost predicate FollowsClosedForm(ps: seq<Plan>, m: seq<UserId>, f: seq<UserId>, t: nat, forFemale: bool, forMale: bool)
    requires t >= 1
  {
    var a := FemaleMade(|m|, |f|, t, forFemale);
    |ps| == a + MaleMade(|m|, |f|, t, forFemale, forMale) && RoomsAt(ps, m, f, t, a)
  }

  lemma SecondPhaseOnly(m: seq<UserId>, f: seq<UserId>, t: nat, forFemale: bool, forMale: bool)
    requires t >= 1 && (|m| < t || |f| == 0)
    ensures FollowsClosedForm(Plans(m, f, t, forFemale, forMale), m, f, t, forFemale, forMale)
  {
    hide Plans, IsRoomAt, FemaleRooms, MaleRooms, Quotient;
    MalePhase(m, f, t, forFemale, forMale);
    NoFemaleRooms(|m|, |f|, t);
  }

  lemma ShortForFemales(m: seq<UserId>, f: seq<UserId>, t: nat, forMale: bool)
    requires t >= 1 && |m| >= t && |f| >= 1
    ensures FollowsClosedForm(Plans(m, f, t, false, forMale), m, f, t, false, forMale)
  {
  }

  lemma ClosedFormShifts(rest: seq<Plan>, m: seq<UserId>, f: seq<UserId>, t: nat, forMale: bool)
    requires t >= 1 && |m| >= t && |f| >= 1 && FollowsClosedForm(rest, m[t..], f[1..], t, true, forMale)
    ensures FollowsClosedForm([Plan(f[0], m[..t])] + rest, m, f, t, true, forMale)
  {
    OneFemaleRoom(|m|, |f|, t);
    hide FemaleRooms, MaleRooms, RoomsAt;
    RoomsShift(rest, m, f, t, FemaleRooms(|m|, |f|, t));
  }

  ghost predicate RoomsAt(ps: seq<Plan>, m: seq<UserId>, f: seq<UserId>, t: nat, a: nat) {
    forall i | 0 <= i < |ps| :: IsRoomAt(ps[i], m, f, t, a, i)
  }

  /** A female-challenger room in front of the rooms made of the rest of the queues. */
  lemma RoomsShift(rest: seq<Plan>, m: seq<UserId>, f: seq<UserId>, t: nat, a: nat)
    requires a >= 1 && |m| >= t && |f| >= 1 && RoomsAt(rest, m[t..], f[1..], t, a - 1)
    ensures RoomsAt([Plan(f[0], m[..t])] + rest, m, f, t, a)
  {
    var ps := [Plan(f[0], m[..t])] + rest;
    hide IsRoomAt;
    FirstFemaleRoom(m, f, t, a);
    forall i | 0 < i < |ps| ensures IsRoomAt(ps[i], m, f, t, a, i) {
      RoomAtShifts(rest[i - 1], m, f, t, a, i);
    }
  }

  /**
   A pass consumes a prefix of each queue and leaves the rest in order; with enough questions it
   stops only when neither kind of room is formable.
   */
  lemma {:induction false} PassLeaves(m: seq<UserId>, f: seq<UserId>, t: nat, forFemale: bool, forMale: bool)
    requires t >= 1
    ensures LeavesRest(LeftOver(m, f, t, forFemale, forMale), m, f, t, forFemale, forMale)
    decreases |m| + |f|
  {
    hide LeavesRest;
    if |m| < t || |f| == 0 {
      SecondPhaseLeaves(m, f, t, forFemale, forMale);
    } else if forFemale {
      PassLeaves(m[t..], f[1..], t, forFemale, forMale);
      LeavesRestShifts(LeftOver(m[t..], f[1..], t, forFemale, forMale), m, f, t, forMale);
    } else {
      ShortLeavesAll(m, f, t, forMale);
    }
  }

  ghost predicate LeavesRest(rest: (seq<UserId>, seq<UserId>), m: seq<UserId>, f: seq<UserId>, t: nat, forFemale: bool, forMale: bool)
    requires t >= 1
  {
    && IsRest(rest, m, f, t, FemaleMade(|m|, |f|, t, forFemale), MaleMade(|m|, |f|, t, forFemale, forMale))
    && (forFemale && forMale ==> !Formable(|rest.0|, |rest.1|, t))
  }

  lemma SecondPhaseLeaves(m: seq<UserId>, f: seq<UserId>, t: nat, forFemale: bool, forMale: bool)
    requires t >= 1 && (|m| < t || |f| == 0)
    ensures LeavesRest(LeftOver(m, f, t, forFemale, forMale), m, f, t, forFemale, forMale)
  {
    hide LeftOver, FemaleRooms, MaleRooms, Quotient;
    MalePhaseLeaves(m, f, t, forFemale, forMale);
    NoFemaleRooms(|m|, |f|, t);
    assert Times(0, t) == 0;
    hide Times, Formable;
  }

  lemma NoFemaleRooms(m: nat, f: nat, t: nat)
    requires t >= 1 && (m < t || f == 0)
    ensures FemaleRooms(m, f, t) == 0 && MaleRooms(m, f, t) == Min(Quotient(f, t), m)
  {
  }

  lemma ShortLeavesAll(m: seq<UserId>, f: seq<UserId>, t: nat, forMale: bool)
    requires t >= 1 && |m| >= t && |f| >= 1
    ensures LeavesRest(LeftOver(m, f, t, false, forMale), m, f, t, false, forMale)
  {
  }

  lemma LeavesRestShifts(rest: (seq<UserId>, seq<UserId>), m: seq<UserId>, f: seq<UserId>, t: nat, forMale: bool)
    requires t >= 1 && |m| >= t && |f| >= 1 && LeavesRest(rest, m[t..], f[1..], t, true, forMale)
    ensures LeavesRest(rest, m, f, t, true, forMale)
  {
    OneFemaleRoom(|m|, |f|, t);
    hide FemaleRooms, MaleRooms, IsRest, Formable;
    RestShifts(rest, m, f, t, FemaleRooms(|m|, |f|, t), MaleMade(|m|, |f|, t, true, forMale));
  }

  /** What a rooms with a female and b with a male challenger leave of the queues. */
  ghost predicate IsRest(rest: (seq<UserId>, seq<UserId>), m: seq<UserId>, f: seq<UserId>, t: nat, a: nat, b: nat) {
    && Times(a, t) + b <= |m| && a + Times(b, t) <= |f|
    && rest == (m[Times(a, t) + b..], f[a + Times(b, t)..])
  }

  lemma RestShifts(rest: (seq<UserId>, seq<UserId>), m: seq<UserId>, f: seq<UserId>, t: nat, a: nat, b: nat)
    requires a >= 1 && |m| >= t && |f| >= 1 && IsRest(rest, m[t..], f[1..], t, a - 1, b)
    ensures IsRest(rest, m, f, t, a, b)
    ensures Times(a, t) == Times(a - 1, t) + t
  {
    assert m[t..][Times(a - 1, t) + b..] == m[Times(a, t) + b..];
    assert f[1..][(a - 1) + Times(b, t)..] == f[a + Times(b, t)..];
  }

  // ----- The queues between passes -----

  /** After one arrival at queues from which no room is formable, a pass makes at most one room. */
  lemma OneArrivalOneRoom(m: nat, f: nat, t: nat)
    requires t >= 1 && !Formable(m, f, t)
    ensures FemaleRooms(m + 1, f, t) + MaleRooms(m + 1, f, t) <= 1
    ensures FemaleRooms(m, f + 1, t) + MaleRooms(m, f + 1, t) <= 1
  {
    assert Quotient(0, t) == 0;
    if m + 1 >= t && f >= 1 {
      OneFemaleRoom(m + 1, f, t);
    }
    if m >= t {
      OneFemaleRoom(m, f + 1, t);
    }
  }
}
