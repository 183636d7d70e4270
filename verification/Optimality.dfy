/** When a formation pass makes as many rooms as the queues allow, and when it does not. */
module Optimality {
  import opened Domain
  import opened Ordering
  import opened Queue
  import opened Matchmaker
  import opened Formation
  import opened RunBounds

  // ----- Rooms that could be formed -----

  /** A room of a challenger from one group and t audience members from the other. */
  ghost predicate IsRoom(p: Plan, men: set<UserId>, women: set<UserId>, t: nat) {
    && |p.audience| == t && |Elements(p.audience)| == t
    && ((p.challenger in women && Elements(p.audience) <= men) || (p.challenger in men && Elements(p.audience) <= women))
  }

  /** Rooms that could all be formed at once: no two of them share anybody. */
  ghost predicate Arrangement(ps: seq<Plan>, men: set<UserId>, women: set<UserId>, t: nat) {
    && (forall i | 0 <= i < |ps| :: IsRoom(ps[i], men, women, t))
    && (forall i, j | 0 <= i < j < |ps| :: Everyone(ps[i]) !! Everyone(ps[j]))
  }

  /** There are enough people for a rooms with a female and b with a male challenger. */
  predicate Feasible(m: nat, f: nat, t: nat, a: nat, b: nat) {
    a * t + b <= m && a + b * t <= f
  }

  // ----- Arrangements are feasible numbers -----

  lemma CountWithout<T>(s: set<T>, x: set<T>)
    requires x <= s
    ensures |s - x| == |s| - |x|
  {
    assert s == x + (s - x);
    assert |x + (s - x)| == |x| + |s - x|;
  }

  lemma Takes(from: set<UserId>, other: set<UserId>, aud: set<UserId>, host: UserId)
    requires from !! other && aud <= from && host in other
    ensures |from - ({host} + aud)| == |from| - |aud| && |other - ({host} + aud)| == |other| - 1
  {
    assert from - ({host} + aud) == from - aud && other - ({host} + aud) == other - {host};
    CountWithout(from, aud);
    CountWithout(other, {host});
  }

  lemma RoomTakes(p: Plan, men: set<UserId>, women: set<UserId>, t: nat)
    requires men !! women && IsRoom(p, men, women, t)
    ensures var m := |men - Everyone(p)|; var f := |women - Everyone(p)|;
      (m == |men| - t && f == |women| - 1) || (m == |men| - 1 && f == |women| - t)
  {
    var aud := Elements(p.audience);
    if p.challenger in women && aud <= men {
      Takes(men, women, aud, p.challenger);
    } else {
      Takes(women, men, aud, p.challenger);
    }
    assert Everyone(p) == {p.challenger} + aud;
  }

  lemma OtherRooms(ps: seq<Plan>, men: set<UserId>, women: set<UserId>, t: nat)
    requires ps != [] && Arrangement(ps, men, women, t)
    ensures var n := |ps| - 1; var gone := Everyone(ps[n]); Arrangement(ps[..n], men - gone, women - gone, t)
  {
    var n := |ps| - 1;
    var gone := Everyone(ps[n]);
    forall i | 0 <= i < n ensures IsRoom(ps[..n][i], men - gone, women - gone, t) {
      assert IsRoom(ps[i], men, women, t) && Everyone(ps[i]) !! gone;
      RoomElsewhere(ps[i], men, women, t, gone);
    }
  }

  lemma RoomElsewhere(p: Plan, men: set<UserId>, women: set<UserId>, t: nat, gone: set<UserId>)
    requires IsRoom(p, men, women, t) && Everyone(p) !! gone
    ensures IsRoom(p, men - gone, women - gone, t)
  {
    assert p.challenger in Everyone(p) && Elements(p.audience) <= Everyone(p);
  }

  lemma FeasibleAndMore(m: nat, f: nat, t: nat, a: nat, b: nat)
    requires Feasible(m, f, t, a, b)
    ensures Feasible(m + t, f + 1, t, a + 1, b) && Feasible(m + 1, f + t, t, a, b + 1)
  {
    assert (a + 1) * t == a * t + t && (b + 1) * t == b * t + t;
  }

  /** However rooms are arranged, their numbers are feasible. */
  lemma {:induction false} ArrangementIsFeasible(ps: seq<Plan>, men: set<UserId>, women: set<UserId>, t: nat)
    returns (a: nat, b: nat)
    requires men !! women && Arrangement(ps, men, women, t)
    ensures a + b == |ps| && Feasible(|men|, |women|, t, a, b)
    decreases |ps|
  {
    if ps == [] {
      a, b := 0, 0;
    } else {
      var n := |ps| - 1;
      var gone := Everyone(ps[n]);
      OtherRooms(ps, men, women, t);
      RoomTakes(ps[n], men, women, t);
      hide Everyone, IsRoom, Feasible;
      var x, y := ArrangementIsFeasible(ps[..n], men - gone, women - gone, t);
      FeasibleAndMore(|men - gone|, |women - gone|, t, x, y);
      if |men - gone| == |men| - t && |women - gone| == |women| - 1 {
        a, b := x + 1, y;
      } else {
        a, b := x, y + 1;
      }
    }
  }

  // ----- Feasible numbers can be arranged -----

  /** a rooms with female challengers and then b with male ones, from the heads of the queues. */
  function Arrange(m: seq<UserId>, f: seq<UserId>, t: nat, a: nat, b: nat): seq<Plan>
    requires t >= 1
    decreases a + b
  {
    if a > 0 && |m| >= t && |f| >= 1 then [Plan(f[0], m[..t])] + Arrange(m[t..], f[1..], t, a - 1, b)
    else if a == 0 && b > 0 && |f| >= t && |m| >= 1 then [Plan(m[0], f[..t])] + Arrange(m[1..], f[t..], t, a, b - 1)
    else []
  }

  lemma FeasibleHeads(m: nat, f: nat, t: nat, a: nat, b: nat)
    requires Feasible(m, f, t, a, b)
    ensures a > 0 ==> m >= t && f >= 1 && Feasible(m - t, f - 1, t, a - 1, b)
    ensures a == 0 && b > 0 ==> f >= t && m >= 1 && Feasible(m - 1, f - t, t, 0, b - 1)
  {
    if a > 0 {
      assert a * t == (a - 1) * t + t;
      assert (a - 1) * t >= 0;
    }
    if b > 0 {
      assert b * t == (b - 1) * t + t;
      assert (b - 1) * t >= 0;
    }
  }

  lemma HeadRoom(q: seq<UserId>, o: seq<UserId>, t: nat)
    requires Distinct(q) && Distinct(o) && 1 <= |q| && t <= |o|
    ensures var p := Plan(q[0], o[..t]);
      && p.challenger in Elements(q) && Elements(p.audience) <= Elements(o) && |Elements(p.audience)| == t
  {
    DistinctCount(o[..t]);
    assert forall u | u in o[..t] :: u in o;
  }

  lemma NextArranged(p: Plan, ps: seq<Plan>, men: set<UserId>, women: set<UserId>, t: nat, men': set<UserId>, women': set<UserId>)
    requires IsRoom(p, men, women, t) && Arrangement(ps, men', women', t)
    requires men' <= men - Everyone(p) && women' <= women - Everyone(p)
    ensures Arrangement([p] + ps, men, women, t)
  {
    var qs := [p] + ps;
    forall i | 0 <= i < |ps| ensures IsRoom(ps[i], men, women, t) && Everyone(p) !! Everyone(ps[i]) {
      assert IsRoom(ps[i], men', women', t);
      assert Everyone(ps[i]) <= men' + women';
    }
    forall i, j | 0 <= i < j < |qs| ensures Everyone(qs[i]) !! Everyone(qs[j]) {
      if i > 0 {
        assert Everyone(ps[i - 1]) !! Everyone(ps[j - 1]);
      }
    }
    hide IsRoom, Everyone;
  }

  lemma {:induction false} FeasibleCanBeArranged(m: seq<UserId>, f: seq<UserId>, t: nat, a: nat, b: nat)
    requires t >= 1 && Distinct(m) && Distinct(f) && Elements(m) !! Elements(f) && Feasible(|m|, |f|, t, a, b)
    ensures |Arrange(m, f, t, a, b)| == a + b
    ensures Arrangement(Arrange(m, f, t, a, b), Elements(m), Elements(f), t)
    decreases a + b
  {
    hide Feasible, Arrangement;
    FeasibleHeads(|m|, |f|, t, a, b);
    if a > 0 {
      RestStaysApart(m, f, t, 1);
      FeasibleCanBeArranged(m[t..], f[1..], t, a - 1, b);
      OneRoomFirst(f, m, t, Elements(m), Elements(f), Arrange(m[t..], f[1..], t, a - 1, b));
    } else if b > 0 {
      RestStaysApart(m, f, 1, t);
      FeasibleCanBeArranged(m[1..], f[t..], t, a, b - 1);
      OneRoomFirst(m, f, t, Elements(m), Elements(f), Arrange(m[1..], f[t..], t, a, b - 1));
    } else {
      NoRooms(Elements(m), Elements(f), t);
    }
  }

  lemma NoRooms(men: set<UserId>, women: set<UserId>, t: nat)
    ensures Arrangement([], men, women, t)
  {
  }

  /** The head of one queue with the first t of the other, before rooms arranged from what is left. */
  lemma OneRoomFirst(q: seq<UserId>, o: seq<UserId>, t: nat, men: set<UserId>, women: set<UserId>, ps: seq<Plan>)
    requires Distinct(q) && Distinct(o) && Elements(q) !! Elements(o) && 1 <= |q| && t <= |o|
    requires (men == Elements(o) && women == Elements(q) && Arrangement(ps, Elements(o[t..]), Elements(q[1..]), t))
          || (men == Elements(q) && women == Elements(o) && Arrangement(ps, Elements(q[1..]), Elements(o[t..]), t))
    ensures Arrangement([Plan(q[0], o[..t])] + ps, men, women, t)
  {
    var p := Plan(q[0], o[..t]);
    HeadRoom(q, o, t);
    TailOfDistinct(q, 1);
    TailOfDistinct(o, t);
    assert q[..1] == [q[0]];
    assert Elements(q[..1]) == {q[0]};
    assert Elements(q[1..]) <= Elements(q) - Everyone(p) && Elements(o[t..]) <= Elements(o) - Everyone(p);
    hide Arrangement, Elements, Everyone;
    if men == Elements(o) && women == Elements(q) && Arrangement(ps, Elements(o[t..]), Elements(q[1..]), t) {
      NextArranged(p, ps, men, women, t, Elements(o[t..]), Elements(q[1..]));
    } else {
      NextArranged(p, ps, men, women, t, Elements(q[1..]), Elements(o[t..]));
    }
  }

  // ----- The numbers of a pass -----

  /** Nothing can be gained over a pass: no female-challenger room that two male-challenger rooms could replace. */
  predicate NoGain(m: nat, f: nat, t: nat)
    requires t >= 1
  {
    var a, b := FemaleRooms(m, f, t), MaleRooms(m, f, t);
    t == 1 || a == 0 || f - a - b * t < 2 * t - 1
  }

  lemma Cancel(p: nat, q: nat, t: nat)
    requires p * t < q * t
    ensures p < q
  {
    if q <= p {
      MulLe(q, p, t);
    }
  }

  lemma AtLeast(x: nat, t: nat, q: nat)
    requires t >= 1 && q * t <= x
    ensures q <= x / t
  {
    var d := x / t;
    assert (d + 1) * t == d * t + t;
    Cancel(q, d + 1, t);
  }

  lemma AtMost(x: nat, t: nat)
    requires t >= 1
    ensures (x / t) * t <= x
  {
  }

  lemma GreedyIsFeasible(m: nat, f: nat, t: nat, a: nat, b: nat)
    requires t >= 1 && a <= f && a * t <= m && b == Min((f - a) / t, m - a * t)
    ensures Feasible(m, f, t, a, b)
  {
    AtMost(f - a, t);
    MulLe(b, (f - a) / t, t);
  }

  lemma GreedyLeavesNone(m: nat, f: nat, t: nat, a: nat, b: nat)
    requires t >= 1 && Feasible(m, f, t, a, b) && a == Min(m / t, f) && b == Min((f - a) / t, m - a * t)
    ensures !Formable(m - a * t - b, f - a - b * t, t)
  {
    SplitTimes(a, 1, t);
    SplitTimes(b, 1, t);
    var left, rest := m / t, (f - a) / t;
    if (a + 1) * t <= m {
      AtLeast(m, t, a + 1);
    }
    if (b + 1) * t <= f - a {
      AtLeast(f - a, t, b + 1);
    }
  }

  /** The numbers of a pass are feasible, no feasible choice has more female-challenger rooms, and nothing formable is left. */
  lemma PassNumbers(m: nat, f: nat, t: nat)
    requires t >= 1
    ensures var a, b := FemaleRooms(m, f, t), MaleRooms(m, f, t);
      && a <= f && Feasible(m, f, t, a, b) && !Formable(m - a * t - b, f - a - b * t, t)
  {
    hide FemaleRooms, MaleRooms, Quotient, Times;
    var a, b := FemaleRooms(m, f, t), MaleRooms(m, f, t);
    RoomCounts(m, f, t);
    GreedyIsFeasible(m, f, t, a, b);
    GreedyLeavesNone(m, f, t, a, b);
  }

  /** Where a gain is possible, two male-challenger rooms in place of one female-challenger room make it. */
  lemma GainIsPossible(m: nat, f: nat, t: nat)
    requires t >= 1 && !NoGain(m, f, t)
    ensures var a, b := FemaleRooms(m, f, t), MaleRooms(m, f, t); Feasible(m, f, t, a - 1, b + 2)
  {
    var a, b := FemaleRooms(m, f, t), MaleRooms(m, f, t);
    PassNumbers(m, f, t);
    hide FemaleRooms, MaleRooms;
    assert (a - 1) * t == a * t - t && (b + 2) * t == b * t + 2 * t;
  }

  lemma MostFemaleRooms(m: nat, f: nat, t: nat, a: nat, b: nat)
    requires t >= 1 && Feasible(m, f, t, a, b)
    ensures a <= FemaleRooms(m, f, t)
  {
    RoomCounts(m, f, t);
    assert b * t >= 0;
    AtLeast(m, t, a);
  }

  /** k fewer female-challenger rooms pay for k more male-challenger ones only if the females left over suffice. */
  lemma TradeNeeds(rf: nat, t: nat, k: nat, d: nat)
    requires t >= 2 && k >= 1 && d >= k + 1 && d * t - k <= rf
    ensures rf >= 2 * t - 1
  {
    SplitTimes(k + 1, d - k - 1, t);
    SplitTimes(2, k - 1, t);
    MulLe(1, t, k - 1);
  }

  lemma NoneBetterThan(m: nat, f: nat, t: nat, a0: nat, b0: nat, a: nat, b: nat)
    requires t >= 1 && Feasible(m, f, t, a0, b0) && Feasible(m, f, t, a, b) && a <= a0
    requires !Formable(m - a0 * t - b0, f - a0 - b0 * t, t)
    requires t == 1 || a0 == 0 || f - a0 - b0 * t < 2 * t - 1
    ensures a + b <= a0 + b0
  {
    if t > 1 && a + b > a0 + b0 {
      var k, d := a0 - a, b - b0;
      SplitTimes(b0, d, t);
      SplitTimes(a, k, t);
      if k == 0 {
        SplitTimes(1, d - 1, t);
      } else {
        TradeNeeds(f - a0 - b0 * t, t, k, d);
      }
    }
  }

  lemma SplitTimes(x: nat, y: nat, t: nat)
    ensures (x + y) * t == x * t + y * t >= x * t
  {
  }

  lemma NoneBetter(m: nat, f: nat, t: nat, a: nat, b: nat)
    requires t >= 1 && NoGain(m, f, t) && Feasible(m, f, t, a, b)
    ensures a + b <= FemaleRooms(m, f, t) + MaleRooms(m, f, t)
  {
    var a0, b0 := FemaleRooms(m, f, t), MaleRooms(m, f, t);
    PassNumbers(m, f, t);
    MostFemaleRooms(m, f, t, a, b);
    assert t == 1 || a0 == 0 || f - a0 - b0 * t < 2 * t - 1;
    hide FemaleRooms, MaleRooms, Feasible, Formable;
    NoneBetterThan(m, f, t, a0, b0, a, b);
  }

  /** In numbers: a pass makes as many rooms as possible exactly when there is no gain. */
  lemma PassIsBestInNumbers(m: nat, f: nat, t: nat)
    requires t >= 1
    ensures (forall a: nat, b: nat | Feasible(m, f, t, a, b) :: a + b <= FemaleRooms(m, f, t) + MaleRooms(m, f, t))
      <==> NoGain(m, f, t)
  {
    if NoGain(m, f, t) {
      forall a: nat, b: nat | Feasible(m, f, t, a, b) ensures a + b <= FemaleRooms(m, f, t) + MaleRooms(m, f, t) {
        NoneBetter(m, f, t, a, b);
      }
    } else {
      GainIsPossible(m, f, t);
    }
  }

  // ----- The rooms of a pass -----

  lemma CountOfPass(m: seq<UserId>, f: seq<UserId>, t: nat)
    requires t >= 1
    ensures |Plans(m, f, t, true, true)| == FemaleRooms(|m|, |f|, t) + MaleRooms(|m|, |f|, t)
  {
    ClosedForm(m, f, t, true, true);
    hide Plans, RoomsAt, FemaleRooms, MaleRooms;
  }

  /**
   A pass over two queues makes as many rooms as could be formed of their people at all exactly when
   the threshold is 1, or it makes no female-challenger room, or it leaves fewer than 2t - 1 females.
   */
  lemma PassIsBestExactly(m: seq<UserId>, f: seq<UserId>, t: nat)
    requires t >= 1 && Distinct(m) && Distinct(f) && Elements(m) !! Elements(f)
    ensures (forall ps | Arrangement(ps, Elements(m), Elements(f), t) :: |ps| <= |Plans(m, f, t, true, true)|)
      <==> NoGain(|m|, |f|, t)
  {
    hide Arrangement, Plans, NoGain, Elements, Feasible, FemaleRooms, MaleRooms;
    CountOfPass(m, f, t);
    DistinctCount(m);
    DistinctCount(f);
    PassIsBestInNumbers(|m|, |f|, t);
    if NoGain(|m|, |f|, t) {
      forall ps | Arrangement(ps, Elements(m), Elements(f), t) ensures |ps| <= |Plans(m, f, t, true, true)| {
        var a, b := ArrangementIsFeasible(ps, Elements(m), Elements(f), t);
      }
    } else {
      var a: nat, b: nat :| Feasible(|m|, |f|, t, a, b) && a + b > FemaleRooms(|m|, |f|, t) + MaleRooms(|m|, |f|, t);
      FeasibleCanBeArranged(m, f, t, a, b);
    }
  }

  /**
   The same of the queues as they stand, with enough questions: try_create_rooms makes as many rooms as
   the queue state allows exactly when there is no gain.
   */
  lemma FormationIsBestExactly(c: Config, pool: map<QuestionId, Question>, users: map<UserId, User>)
    requires Sensible(c) && AmpleQuestions(c, pool)
    ensures var men := InQueue(users, Male); var women := InQueue(users, Female);
      (forall ps | Arrangement(ps, men, women, c.threshold) :: |ps| <= |Pass(c, pool, users)|)
      <==> NoGain(|men|, |women|, c.threshold)
  {
    QueueDistinct(users, Male);
    QueueDistinct(users, Female);
    QueuesDisjoint(users);
    hide InQueue, QueueOf, Plans, NoGain, Arrangement, Enough, Elements;
    PassIsBestExactly(QueueOf(users, Male), QueueOf(users, Female), c.threshold);
  }

  /** The input that shows it: of 15 men and 15 women a pass with a threshold of 5 makes three rooms, though four can be arranged. */
  lemma FifteenEach(m: seq<UserId>, f: seq<UserId>)
    requires Distinct(m) && Distinct(f) && Elements(m) !! Elements(f) && |m| == 15 && |f| == 15
    ensures |Plans(m, f, 5, true, true)| == 3 && !NoGain(15, 15, 5)
    ensures |Arrange(m, f, 5, 2, 2)| == 4 && Arrangement(Arrange(m, f, 5, 2, 2), Elements(m), Elements(f), 5)
  {
    hide Arrange, Arrangement, Plans;
    RoomCounts(15, 15, 5);
    CountOfPass(m, f, 5);
    FeasibleCanBeArranged(m, f, 5, 2, 2);
  }
}
