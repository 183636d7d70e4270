/** The room state machine and the walks through it that the audit history records. */
module RoomStates {
  import opened Domain

  function Successors(state: RoomState): set<RoomState> {
    match state
    case Ready => {RoomState.Intro}
    case Intro => {RoomState.Questioning}
    case Questioning => {RoomState.Voting}
    case Voting => {RoomState.Elimination}
    case Elimination => {RoomState.Questioning, RoomState.OneOnOne, RoomState.Final, RoomState.Completed}
    case OneOnOne => {RoomState.FinalSelection, RoomState.Final, RoomState.Matched, RoomState.Completed}
    case FinalSelection => {RoomState.Matched, RoomState.Completed}
    case Final => {RoomState.Matched, RoomState.Completed}
    case Matched => {RoomState.Completed}
    case Completed => {}
    case Waiting => {RoomState.Ready}
  }

  predicate IsValidTransition(current: RoomState, target: RoomState) {
    target in Successors(current)
  }

  /** The eighteen moves, one by one. */
  lemma TheMoves(source: RoomState, target: RoomState)
    ensures IsValidTransition(source, target) <==> (source, target) in {
      (RoomState.Waiting, RoomState.Ready), (RoomState.Ready, RoomState.Intro), (RoomState.Intro, RoomState.Questioning),
      (RoomState.Questioning, RoomState.Voting), (RoomState.Voting, RoomState.Elimination),
      (RoomState.Elimination, RoomState.Questioning), (RoomState.Elimination, RoomState.OneOnOne),
      (RoomState.Elimination, RoomState.Final), (RoomState.Elimination, RoomState.Completed),
      (RoomState.OneOnOne, RoomState.FinalSelection), (RoomState.OneOnOne, RoomState.Final),
      (RoomState.OneOnOne, RoomState.Matched), (RoomState.OneOnOne, RoomState.Completed),
      (RoomState.FinalSelection, RoomState.Matched), (RoomState.FinalSelection, RoomState.Completed),
      (RoomState.Final, RoomState.Matched), (RoomState.Final, RoomState.Completed),
      (RoomState.Matched, RoomState.Completed)}
  {
  }

  /** The moves lead from one state to another, each move valid and starting where the last one ended. */
  ghost predicate IsWalk(history: seq<Move>, source: RoomState, target: RoomState) {
    if history == [] then source == target
    else
      var last := history[|history| - 1];
      last.target == target && IsValidTransition(last.source, last.target)
      && IsWalk(history[..|history| - 1], source, last.source)
  }

  lemma WalkExtends(history: seq<Move>, source: RoomState, middle: RoomState, target: RoomState)
    requires IsWalk(history, source, middle) && IsValidTransition(middle, target)
    ensures IsWalk(history + [Move(middle, target)], source, target)
  {
    var h := history + [Move(middle, target)];
    assert h[..|h| - 1] == history;
  }

  /**
   In a walk from READY nothing leaves COMPLETED and nothing comes back to READY; INTRO is its first
   state, and a round of questioning after the first starts from ELIMINATION alone.
   */
  lemma {:induction false} NoWayBack(history: seq<Move>, target: RoomState)
    requires IsWalk(history, RoomState.Ready, target)
    ensures target.Intro? <==> |history| == 1
    ensures forall m | m in history :: !m.source.Completed? && !m.target.Ready? && !m.target.Waiting?
    ensures forall i | 2 <= i < |history| && history[i].target.Questioning? :: history[i].source.Elimination?
    decreases |history|
  {
    if history != [] {
      var n := |history| - 1;
      NoWayBack(history[..n], history[n].source);
      assert history == history[..n] + [history[n]];
    }
  }

  /** Where a walk from READY can be after few moves. */
  predicate Early(n: nat, target: RoomState) {
    && (n == 0 ==> target.Ready?) && (n == 1 ==> target.Intro?) && (n == 2 ==> target.Questioning?)
    && (n == 3 ==> target.Voting?) && (n == 4 ==> target.Elimination?)
  }

  lemma {:induction false} EarlyMoves(history: seq<Move>, target: RoomState)
    requires IsWalk(history, RoomState.Ready, target)
    ensures Early(|history|, target)
    ensures forall i | 0 <= i < |history| :: Early(i, history[i].source) && Early(i + 1, history[i].target)
    decreases |history|
  {
    if history != [] {
      var n := |history| - 1;
      EarlyMoves(history[..n], history[n].source);
      forall i | 0 <= i < n ensures history[..n][i] == history[i] {}
    }
  }

  /**
   Every walk from READY begins with INTRO, QUESTIONING, VOTING and ELIMINATION, each of them entered
   from the one before, and gets to COMPLETED only after those four.
   */
  lemma OpeningMoves(history: seq<Move>, target: RoomState)
    requires IsWalk(history, RoomState.Ready, target)
    ensures var opening := [Move(RoomState.Ready, RoomState.Intro), Move(RoomState.Intro, RoomState.Questioning),
                            Move(RoomState.Questioning, RoomState.Voting), Move(RoomState.Voting, RoomState.Elimination)];
      if |history| < 4 then history <= opening else opening <= history
    ensures target.Completed? ==> |history| >= 5
  {
    EarlyMoves(history, target);
    hide IsWalk;
  }

  /** How many rounds of questioning a history has opened. */
  function Rounds(history: seq<Move>): nat {
    if history == [] then 0
    else Rounds(history[..|history| - 1])
         + (if history[|history| - 1].target.Questioning? then 1 else 0)
  }
}
