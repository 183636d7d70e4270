/** TimerService between its awaits: any interleaving of starts, cancellations, wake-ups and callbacks. */
module Timers {
  import opened Domain
  import Protocol

  type TaskId = nat

  /** A task has not run yet, sleeps, runs its callback, or is done. */
  datatype Phase = Scheduled | Sleeping | Calling | Done

  /** `cancelled` is a request: the task sees it when it next resumes. */
  datatype Task = Task(room: RoomId, timer: Timer, started: Time, duration: nat, phase: Phase, cancelled: bool)

  /** What get_timer_info tells of a running countdown. */
  datatype TimerInfo = TimerInfo(timer: Timer, duration: nat, started: Time, expires: Time, remaining: nat)

  datatype Service = Service(tasks: map<TaskId, Task>, timers: map<RoomId, TaskId>, nextTask: TaskId)

  /** The code that runs between two awaits. */
  datatype Segment =
    | StartTimer(room: RoomId, timer: Timer, duration: nat, now: Time)
    | CancelTimer(room: RoomId, kind: Option<TimerKind>)
    | Begin(task: TaskId)
    | Wake(task: TaskId)
    | Finish(task: TaskId)

  function Cancelling(s: Service, r: RoomId, kind: Option<TimerKind>): Service
    requires r in s.timers ==> s.timers[r] in s.tasks
  {
    if r !in s.timers then s else
      var id := s.timers[r];
      var t := s.tasks[id];
      if kind.Some? && t.timer.kind != kind.value then s
      else s.(timers := s.timers - {r}, tasks := if t.phase.Done? then s.tasks else s.tasks[id := t.(cancelled := true)])
  }

  function Started(s: Service, r: RoomId, timer: Timer, duration: nat, now: Time): Service
    requires r in s.timers ==> s.timers[r] in s.tasks
  {
    var s0 := Cancelling(s, r, None);
    Service(s0.tasks[s.nextTask := Task(r, timer, now, duration, Scheduled, false)], s0.timers[r := s.nextTask], s.nextTask + 1)
  }

  /** The task's finally block: it removes its room's record only when that is its own. */
  function Left(s: Service, id: TaskId): Service
    requires id in s.tasks
  {
    var r := s.tasks[id].room;
    s.(tasks := s.tasks[id := s.tasks[id].(phase := Done)],
       timers := if r in s.timers && s.timers[r] == id then s.timers - {r} else s.timers)
  }

  /** The first resumption: a task cancelled before it never enters its body. */
  function Begun(s: Service, id: TaskId): Service
    requires id in s.tasks
  {
    var t := s.tasks[id];
    s.(tasks := s.tasks[id := t.(phase := if t.cancelled then Done else Sleeping)])
  }

  /** The sleep is over: unless cancelled, whatever record the room has is removed and the callback begins. */
  function Woken(s: Service, id: TaskId): Service
    requires id in s.tasks
  {
    var t := s.tasks[id];
    if t.cancelled then Left(s, id)
    else s.(tasks := s.tasks[id := t.(phase := Calling)], timers := s.timers - {t.room})
  }

  predicate Enabled(s: Service, x: Segment) {
    match x
    case StartTimer(r, _, _, _) => r in s.timers ==> s.timers[r] in s.tasks
    case CancelTimer(r, _) => r in s.timers ==> s.timers[r] in s.tasks
    case Begin(id) => id in s.tasks && s.tasks[id].phase.Scheduled?
    case Wake(id) => id in s.tasks && s.tasks[id].phase.Sleeping?
    case Finish(id) => id in s.tasks && s.tasks[id].phase.Calling?
  }

  function Step(s: Service, x: Segment): Service
    requires Enabled(s, x)
  {
    match x
    case StartTimer(r, timer, duration, now) => Started(s, r, timer, duration, now)
    case CancelTimer(r, kind) => Cancelling(s, r, kind)
    case Begin(id) => Begun(s, id)
    case Wake(id) => Woken(s, id)
    case Finish(id) => Left(s, id)
  }

  // ----- What every interleaving keeps -----

  predicate IsPending(t: Task) {
    (t.phase.Scheduled? || t.phase.Sleeping?) && !t.cancelled
  }

  /** The registry holds exactly the pending, uncancelled tasks, and no callback is ever cancelled. */
  ghost predicate Inv(s: Service) {
    && (forall id | id in s.tasks :: id < s.nextTask)
    && (forall r | r in s.timers :: s.timers[r] in s.tasks && s.tasks[s.timers[r]].room == r && IsPending(s.tasks[s.timers[r]]))
    && (forall id | id in s.tasks && IsPending(s.tasks[id]) ::
         s.tasks[id].room in s.timers && s.timers[s.tasks[id].room] == id)
    && (forall id | id in s.tasks && s.tasks[id].phase.Calling? :: !s.tasks[id].cancelled)
  }

  lemma CancellingKeepsInv(s: Service, r: RoomId, kind: Option<TimerKind>)
    requires Inv(s)
    ensures Inv(Cancelling(s, r, kind)) && (kind.None? ==> r !in Cancelling(s, r, kind).timers)
    ensures Cancelling(s, r, kind).nextTask == s.nextTask
  {
  }

  lemma StartKeepsInv(s: Service, r: RoomId, timer: Timer, duration: nat, now: Time)
    requires Inv(s)
    ensures Inv(Started(s, r, timer, duration, now))
  {
    CancellingKeepsInv(s, r, None);
    hide Cancelling;
  }

  lemma BeginKeepsInv(s: Service, id: TaskId)
    requires Inv(s) && id in s.tasks && s.tasks[id].phase.Scheduled?
    ensures Inv(Begun(s, id))
  {
  }

  lemma LeftKeepsInv(s: Service, id: TaskId)
    requires Inv(s) && id in s.tasks && !IsPending(s.tasks[id])
    ensures Inv(Left(s, id))
  {
  }

  lemma WakeKeepsInv(s: Service, id: TaskId)
    requires Inv(s) && id in s.tasks && s.tasks[id].phase.Sleeping?
    ensures Inv(Woken(s, id))
  {
    if s.tasks[id].cancelled {
      LeftKeepsInv(s, id);
    }
  }

  lemma StepKeepsInv(s: Service, x: Segment)
    requires Inv(s) && Enabled(s, x)
    ensures Inv(Step(s, x))
  {
    match x
    case StartTimer(r, timer, duration, now) => StartKeepsInv(s, r, timer, duration, now);
    case CancelTimer(r, kind) => CancellingKeepsInv(s, r, kind);
    case Begin(id) => BeginKeepsInv(s, id);
    case Wake(id) => WakeKeepsInv(s, id);
    case Finish(id) => LeftKeepsInv(s, id);
  }

  ghost predicate IsRun(ss: seq<Service>, xs: seq<Segment>) {
    |ss| == |xs| + 1 && forall i | 0 <= i < |xs| :: Enabled(ss[i], xs[i]) && ss[i + 1] == Step(ss[i], xs[i])
  }

  const EMPTY := Service(map[], map[], 0)

  lemma {:induction false} RunKeepsInv(ss: seq<Service>, xs: seq<Segment>, i: nat)
    requires IsRun(ss, xs) && Inv(ss[0]) && i <= |xs|
    ensures Inv(ss[i])
  {
    if i > 0 {
      RunKeepsInv(ss, xs, i - 1);
      StepKeepsInv(ss[i - 1], xs[i - 1]);
      hide Inv, Step, Enabled;
    }
  }

  /** At most one uncancelled task waits for a room, and it is the registered one. */
  lemma OnePendingTask(s: Service, id: TaskId, other: TaskId)
    requires Inv(s) && id in s.tasks && other in s.tasks && s.tasks[id].room == s.tasks[other].room
    requires IsPending(s.tasks[id]) && IsPending(s.tasks[other])
    ensures id == other && s.timers[s.tasks[id].room] == id
  {
    assert s.timers[s.tasks[id].room] == id;
  }

  /** The unconditional removal on expiry removes the task's own record, and nobody else's. */
  lemma ExpiryRemovesOwnRecord(s: Service, id: TaskId)
    requires Inv(s) && Enabled(s, Wake(id)) && !s.tasks[id].cancelled
    ensures s.tasks[id].room in s.timers && s.timers[s.tasks[id].room] == id
    ensures forall r | r in s.timers && s.timers[r] != id :: r in Woken(s, id).timers
  {
    assert IsPending(s.tasks[id]);
  }

  /** A task whose callback is over, or whose sleep was cancelled. */
  predicate MayLeave(t: Task) {
    t.phase.Calling? || (t.phase.Sleeping? && t.cancelled)
  }

  lemma LeavingKeepsInv(s: Service, id: TaskId)
    requires Inv(s) && id in s.tasks && MayLeave(s.tasks[id])
    ensures Inv(Left(s, id))
  {
    StepKeepsInv(s, if s.tasks[id].phase.Calling? then Finish(id) else Wake(id));
  }

  /** The finally block removes nothing: a task that leaves has no record any more, and a successor's stays. */
  lemma FinallyRemovesNothing(s: Service, id: TaskId)
    requires Inv(s) && id in s.tasks
    requires MayLeave(s.tasks[id])
    ensures Left(s, id).timers == s.timers
  {
    assert !IsPending(s.tasks[id]);
  }

  /** No start or cancellation reaches a callback that has begun. */
  lemma CallbacksAreNotCancelled(s: Service, x: Segment, id: TaskId)
    requires Inv(s) && Enabled(s, x) && (x.StartTimer? || x.CancelTimer?)
    requires id in s.tasks && s.tasks[id].phase.Calling?
    ensures id in Step(s, x).tasks && Step(s, x).tasks[id] == s.tasks[id]
  {
    assert !IsPending(s.tasks[id]);
  }

  /** A cancelled task never runs its callback, however the run goes on. */
  lemma {:induction false} CancelledNeverCalls(ss: seq<Service>, xs: seq<Segment>, i: nat, j: nat, id: TaskId)
    requires IsRun(ss, xs) && Inv(ss[0]) && i <= j <= |xs|
    requires id in ss[i].tasks && ss[i].tasks[id].cancelled
    ensures Inv(ss[j]) && id in ss[j].tasks && ss[j].tasks[id].cancelled && !ss[j].tasks[id].phase.Calling?
    decreases j
  {
    RunKeepsInv(ss, xs, j);
    if i < j {
      CancelledNeverCalls(ss, xs, i, j - 1, id);
      assert ss[j - 1 + 1] == Step(ss[j - 1], xs[j - 1]);
    }
  }

  /** A sleep that ends runs the callback exactly when it was not cancelled, and a first resumption that is not cancelled sleeps. */
  lemma UncancelledTasksCall(s: Service, id: TaskId)
    requires Inv(s)
    ensures Enabled(s, Begin(id)) ==>
      Step(s, Begin(id)).tasks[id].phase == if s.tasks[id].cancelled then Done else Sleeping
    ensures Enabled(s, Wake(id)) ==>
      (Step(s, Wake(id)).tasks[id].phase.Calling? <==> !s.tasks[id].cancelled)
      && (Step(s, Wake(id)).tasks[id].phase.Calling? ==> Enabled(Step(s, Wake(id)), Finish(id)))
  {
    hide Inv;
  }

  function Rank(p: Phase): nat {
    match p
    case Scheduled => 0
    case Sleeping => 1
    case Calling => 2
    case Done => 3
  }

  /** A task keeps its room, timer and countdown, only moves forward, and a cancellation stays. */
  lemma TasksMoveForward(s: Service, x: Segment, id: TaskId)
    requires Inv(s) && Enabled(s, x) && id in s.tasks
    ensures id in Step(s, x).tasks
    ensures var t := s.tasks[id]; var u := Step(s, x).tasks[id];
      && u.room == t.room && u.timer == t.timer && u.started == t.started && u.duration == t.duration
      && Rank(t.phase) <= Rank(u.phase) <= Rank(t.phase) + (if t.cancelled then 3 else 1) && (t.cancelled ==> u.cancelled)
      && (u.phase != t.phase ==> u.cancelled == t.cancelled)
      && (!t.cancelled && u.cancelled ==> t.phase.Scheduled? || t.phase.Sleeping?)
  {
  }

  /** A task that is not cancelled passes through its callback: whatever is done was cancelled or has called. */
  lemma {:induction false} DoneHasCalled(ss: seq<Service>, xs: seq<Segment>, i: nat, id: TaskId)
    requires IsRun(ss, xs) && ss[0] == EMPTY && i <= |xs|
    requires id in ss[i].tasks && ss[i].tasks[id].phase.Done?
    ensures ss[i].tasks[id].cancelled || exists j :: 0 <= j < i && id in ss[j].tasks && ss[j].tasks[id].phase.Calling?
    decreases i
  {
    if i > 0 {
      RunKeepsInv(ss, xs, i - 1);
      assert ss[i - 1 + 1] == Step(ss[i - 1], xs[i - 1]);
      hide IsRun;
      if id in ss[i - 1].tasks {
        TasksMoveForward(ss[i - 1], xs[i - 1], id);
        if ss[i - 1].tasks[id].phase.Done? {
          DoneHasCalled(ss, xs, i - 1, id);
        }
      } else {
        NewTasksWait(ss[i - 1], xs[i - 1], id);
      }
    }
  }

  lemma NewTasksWait(s: Service, x: Segment, id: TaskId)
    requires Inv(s) && Enabled(s, x) && id !in s.tasks && id in Step(s, x).tasks
    ensures Step(s, x).tasks[id].phase.Scheduled? && x.StartTimer?
    ensures Step(s, x).tasks[id] == Task(x.room, x.timer, x.now, x.duration, Scheduled, false)
  {
  }

  // ----- What a room sees of it -----

  /** The registered timer of a room, as the room's own steps see it. */
  function Registered(s: Service, r: RoomId): Option<Timer>
    requires r in s.timers ==> s.timers[r] in s.tasks
  {
    if r in s.timers then Some(s.tasks[s.timers[r]].timer) else None
  }

  /** The registry entry a segment of this room's timer leaves behind. */
  function Seen(before: Option<Timer>, s: Service, x: Segment, r: RoomId): Option<Timer>
    requires Enabled(s, x)
  {
    match x
    case StartTimer(q, timer, _, _) => if q == r then Some(timer) else before
    case CancelTimer(q, kind) => if q == r then Protocol.AfterCancel(before, kind) else before
    case Wake(id) => if s.tasks[id].room == r && !s.tasks[id].cancelled then None else before
    case _ => before
  }

  /**
   The task kernel refines one optional timer per room: starting replaces it, cancelling removes it
   if the kind fits, expiry removes it, and no other segment, of whatever task, is seen at all.
   */
  lemma RoomsSeeOneTimer(s: Service, x: Segment, r: RoomId)
    requires Inv(s) && Enabled(s, x)
    ensures Inv(Step(s, x))
    ensures Registered(Step(s, x), r) == Seen(Registered(s, r), s, x, r)
  {
    StepKeepsInv(s, x);
  }

  /** get_timer_info's extra check for a finished task never matters. */
  lemma RegisteredIsNotDone(s: Service, r: RoomId)
    requires Inv(s) && r in s.timers
    ensures s.timers[r] in s.tasks && !s.tasks[s.timers[r]].phase.Done?
  {
  }

  // ----- The service -----

  class TimerService {
    var tasks: map<TaskId, Task>
    var timers: map<RoomId, TaskId>
    var nextTask: TaskId

    ghost function View(): Service
      reads this
    {
      Service(tasks, timers, nextTask)
    }

    ghost predicate Valid()
      reads this
    {
      Inv(View())
    }

    constructor ()
      ensures Valid() && View() == EMPTY
    {
      tasks, timers, nextTask := map[], map[], 0;
    }

    method StartTimer(room: RoomId, timer: Timer, duration: nat, now: Time) returns (id: TaskId)
      requires Valid()
      modifies this
      ensures Valid() && View() == Started(old(View()), room, timer, duration, now)
      ensures Registered(View(), room) == Some(timer) && timers[room] == id
      ensures id !in old(tasks) && tasks[id] == Task(room, timer, now, duration, Scheduled, false)
      ensures room in old(timers) ==> tasks[old(timers)[room]].cancelled
    {
      ghost var before := View();
      StepKeepsInv(before, Segment.StartTimer(room, timer, duration, now));
      var _ := CancelTimer(room, None);
      id := nextTask;
      tasks := tasks[id := Task(room, timer, now, duration, Scheduled, false)];
      nextTask := nextTask + 1;
      timers := timers[room := id];
    }

    /** Tells whether there was a record to cancel. */
    method CancelTimer(room: RoomId, kind: Option<TimerKind>) returns (found: bool)
      requires Valid()
      modifies this
      ensures Valid() && View() == Cancelling(old(View()), room, kind)
      ensures found <==> old(Registered(View(), room)) != Registered(View(), room)
      ensures Registered(View(), room) == Protocol.AfterCancel(old(Registered(View(), room)), kind)
      ensures found ==> tasks[old(timers)[room]].cancelled
    {
      StepKeepsInv(View(), Segment.CancelTimer(room, kind));
      if room !in timers {
        return false;
      }
      var id := timers[room];
      if kind.Some? && tasks[id].timer.kind != kind.value {
        return false;
      }
      timers := timers - {room};
      if !tasks[id].phase.Done? {
        tasks := tasks[id := tasks[id].(cancelled := true)];
      }
      return true;
    }

    /** get_timer_info: the countdown of the registered timer as of `now`, if there is one. */
    method GetTimerInfo(room: RoomId, now: Time) returns (info: Option<TimerInfo>)
      requires Valid()
      ensures info.Some? <==> Registered(View(), room).Some?
      ensures info.Some? ==> var i := info.value; var t := tasks[timers[room]];
        && Some(i.timer) == Registered(View(), room) && i.duration == t.duration && i.started == t.started
        && i.expires == i.started + i.duration
        && (i.remaining == 0 <==> now >= i.expires)
        && (i.remaining > 0 ==> now + i.remaining == i.expires)
        && (now >= i.started ==> i.remaining <= i.duration)
    {
      if room in timers && !tasks[timers[room]].phase.Done? {
        var t := tasks[timers[room]];
        var expires := t.started + t.duration;
        return Some(TimerInfo(t.timer, t.duration, t.started, expires, if expires > now then expires - now else 0));
      }
      return None;
    }

    /** The end of a task's sleep; `call` tells whether its callback begins. */
    method Expire(id: TaskId) returns (call: bool)
      requires Valid() && id in tasks && tasks[id].phase.Sleeping?
      modifies this
      ensures Valid() && View() == Woken(old(View()), id)
      ensures call <==> !old(tasks)[id].cancelled
      ensures id in tasks && (if call then tasks[id].phase.Calling? else tasks[id].phase.Done?)
      ensures Registered(View(), old(tasks)[id].room) ==
        if call then None else old(Registered(View(), tasks[id].room))
    {
      StepKeepsInv(View(), Wake(id));
      if tasks[id].cancelled {
        Leave(id);
        return false;
      }
      ExpiryRemovesOwnRecord(View(), id);
      timers := timers - {tasks[id].room};
      tasks := tasks[id := tasks[id].(phase := Calling)];
      return true;
    }

    /** The finally block, whatever the registry holds; where the service is valid it leaves the registry alone. */
    method Leave(id: TaskId)
      requires id in tasks
      modifies this
      ensures View() == Left(old(View()), id)
      ensures old(Valid() && MayLeave(tasks[id])) ==> Valid() && timers == old(timers)
    {
      ghost var before := View();
      var room := tasks[id].room;
      if room in timers && timers[room] == id {
        timers := timers - {room};
      }
      tasks := tasks[id := tasks[id].(phase := Done)];
      if Inv(before) && MayLeave(before.tasks[id]) {
        FinallyRemovesNothing(before, id);
        LeavingKeepsInv(before, id);
      }
    }
  }
}
