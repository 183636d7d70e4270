# Date Rush: the room protocol, verified

Date Rush runs live matchmaking. Users queue by gender; a room takes one challenger and an audience of
the other gender; the challenger answers public questions, the audience votes in public, the survivors
each get a private session, and the challenger is matched with one finalist, with whom contacts are
exchanged. One protocol is spread over eight services that share tables and a registry of timers. This
project models that protocol in Dafny and proves what all of its runs have in common.

`dafny verify dfyconfig.toml` checks the whole project.

## How the model is laid out

- `Domain`, `Ordering`, `Text`, `RoomStates`: rows, settings, FIFO and session order, trimming, the state machine.
- `Protocol`: each service call and timer callback as one atomic step on a *slice*: one room's rows, its timer,
  the users table and the clock. `Services` carries the same calls out in place, field by field and loop by
  loop, and is proved to do what `Protocol` says.
- `RoomInvariant`, `QuestioningVoting`, `SessionSteps`, `RoomRuns`, `Outcomes`, `LongestRuns`: the invariant of a
  room in every phase, its preservation, the measure that bounds a room's steps, progress by timers alone, and
  what the phases add up to. `Turns` says exactly which requests a reachable room accepts, and `Changes` what each
  of them, each expiry and each transition then changes, column by column.
- `Effects`, `World`, `Formation`, `AutomaticRuns`, `RunBounds`, `Rejoining`: many rooms at once, with the queues;
  every event of an automatic run, what every reachable world satisfies, and the one event that breaks it.
- `Queue`, `Matchmaker`, `Optimality`: the two queues, the formation loop and its arithmetic, all-or-nothing room
  creation, and when a pass makes as many rooms as possible.
- `Timers`, `Finalizers`: the two pieces of concurrency, at the granularity of the awaits.
- `Contacts`, `Audit`, `Registry`: the contact exchange, the history under arbitrary admin requests, and the
  socket registry.

N is `PUBLIC_QUESTION_ROUNDS`, t is `GAME_ROOM_THRESHOLD`; both are symbolic and at least 1. A is the size of a
room's audience.

## What to know when reading it

- A service call is one atomic step, except in `Timers` and `Finalizers`. The code awaits a broadcast between
  guard and commit in places (`app/services/one_on_one_service.py:540-565`) and between a commit and what
  follows it (`app/services/questioning_service.py:241-260`); the atomic step is an idealisation of those.
- An automatic run consists of player submissions, timer expiries, the two admin starts, registration, queue
  arrivals and departures, contact submissions and the passing of time. The admin endpoint that jumps between
  states at will is part of `Audit` only: it can complete a room whose users are still IN_GAME.
- The queue socket enqueues only users who are in no game and no match (`app/api/ws.py:307-336`). The rejoin
  endpoint (`app/api/queue.py:70-98`) and `QueueManager.add` check neither: a user who is IN_GAME or MATCHED can
  rejoin, and then holds a seat and a place in the queue at once. Runs include such rejoins. Consistency of the
  users with the rooms holds exactly as long as nobody makes one (`RunConsistent`, with the shortest failing run in
  `RejoiningFromAGame`); the rooms' own invariant, the bound on their steps and the queues' rest hold in every run.
- `create_match` cancels the final-selection timer before it checks anything
  (`app/services/match_service.py:168`). A refused choice therefore leaves a room without a timer:
  `ChoiceFinishesOrStalls` says exactly which requests do that, and `ChoosingOneselfStalls` names one.
- `try_create_rooms` says that it makes as many rooms as the queues allow (`app/services/queue_manager.py:107-109`).
  It takes rooms with female challengers first, and that can cost a room; `FormationIsBestExactly` gives the exact
  condition under which it does not, and `FifteenEach` an input on which it does.
- Where code and documentation differ the model follows the code. `docs/services.md:262-271` gives an older
  state machine, without ONE_ON_ONE and FINAL_SELECTION, and `docs/frontend-timer-guide.md:88` says that a
  challenger without answers ends the game; in the code the room goes on to VOTING with placeholders, and
  eliminated users wait outside the queue.
- The number of steps is bounded by N + 4A + 1. A panel of one cannot use all of them, because a single finalist
  is matched without a choice, nor can anybody where PRIVATE_QUESTION_MAX_LENGTH is 0 and no question can be asked;
  `BoundIsExact` says that these are the only exceptions.

## Model

| member | source | states |
|---|---|---|
| `Ordering.List` | app/services/queue_manager.py:180-193 | repeated selection yields exactly the first `count` entries of the one listing of a set by (timestamp, id), which is how every sorted query and the session sort order users |
| `Ordering.ListingIsUnique` | app/services/one_on_one_service.py:236-237 | the (joined_at, user id) order is total: an ordered sequence of a set of users is its only listing, whatever order the rows come back in |
| `Text.Strip` | app/services/one_on_one_service.py:368 | trimming keeps one contiguous piece that neither starts nor ends with a space, drops only spaces, and is empty exactly when the text is all spaces |
| `Services.RoomServices.Transition` | app/services/room_state_service.py:45-185 | accepted exactly for the eighteen (state, target) pairs of the table, listed one by one; otherwise nothing changes; a valid one commits round, audit row and state, cancels the timer of the phase left (by kind) and starts what the new phase begins with |
| `Audit.EveryRequestExtends` | app/services/room_state_service.py:45-99 | any request in any state, an arbitrary admin jump included, only extends the history, never lowers `current_round`, appends answers and votes, never rewrites a filled session column, and never replaces a match |
| `Audit.HistoryIsAWalk` | app/services/room_state_service.py:22-35 | for every sequence of player, timer and admin requests the history is a connected walk in VALID_TRANSITIONS from READY to the current state; earlier histories are prefixes of later ones and the round never decreases |
| `RoomStates.OpeningMoves` | app/services/room_state_service.py:22-35 | a walk in VALID_TRANSITIONS from READY begins with the moves into INTRO, QUESTIONING, VOTING and ELIMINATION, in that order, and gets to COMPLETED only after those four |
| `RoomStates.NoWayBack` | app/services/room_state_service.py:22-35 | nothing leaves COMPLETED or comes back to READY, and a later round of questioning starts from ELIMINATION alone |
| `Audit.EveryRoomOpensAlike` | app/services/room_state_service.py:45-99 | so for any sequence of requests, admin jumps included: INTRO, QUESTIONING, VOTING and ELIMINATION come first and in that order, a room is not COMPLETED before, and once COMPLETED stays so |
| `Changes.TransitionChanges` | app/services/room_state_service.py:75-160 | in any room: which timer a move takes away and which it starts, the round, the displayed question, the audit row, and one session for each present audience member in the order they joined; nothing else changes |
| `Services.RoomServices.SubmitAnswer` | app/services/questioning_service.py:185-280 | the stepwise update of answer, round and question does what the atomic step does, error cases in the same order |
| `Services.RoomServices.AnsweredQuestions` | app/services/questioning_service.py:75-92 | the loop over the answer rows collects exactly the questions the challenger answered |
| `Services.RoomServices.FillMissing` | app/services/questioning_service.py:93-102 | the loop over positions 1..N appends one placeholder for each assigned question not yet answered, in position order, and touches no other answer |
| `Services.RoomServices.HandleQuestioningTimeout` | app/services/questioning_service.py:56-107 | the timeout fills the missing answers and moves to VOTING, also when no question was answered; outside QUESTIONING it does nothing |
| `QuestioningVoting.SubmitAnswerKeeps` | app/services/questioning_service.py:185-280 | an answer keeps "positions 1..current_round-1 are answered" and the rest of the room invariant, and uses up a step; a refused one changes nothing |
| `QuestioningVoting.QuestioningTimeoutKeeps` | app/services/questioning_service.py:56-107 | the timeout leaves a room in VOTING with all N answers and the voting timer running |
| `QuestioningVoting.FillersCompleteTheList` | app/services/questioning_service.py:92-102 | when exactly the first k questions are answered the placeholders are those for positions k+1..N |
| `Changes.AnswerChanges` | app/services/questioning_service.py:224-280 | an accepted answer is filed under the question on display and brings the next question, or the public vote when it was the last; nothing else changes |
| `Outcomes.AnswersAreComplete` | app/services/questioning_service.py:91-107 | entering VOTING by the last answer or by the timeout yields exactly one answer for each position 1..N; earlier answers are still there, and only placeholders (or the one last answer) were added |
| `Services.RoomServices.VoteMap` | app/services/voting_service.py:273-282 | the dictionary built over the vote rows holds for each voter the last choice of this round |
| `Services.RoomServices.SplitAudience` | app/services/voting_service.py:284-301 | the tally loop returns exactly the Yes voters as survivors, keeps them ACTIVE, and closes the rows and resets the users of all other active audience members, whatever order it visits them in |
| `Services.RoomServices.CommitElimination` | app/services/voting_service.py:266-321 | the whole elimination commit, with the challenger released exactly when nobody survives |
| `Services.RoomServices.FinalizeVoting` | app/services/voting_service.py:240-354 | the stepwise finalization does what the atomic one does |
| `Services.RoomServices.SubmitVote` | app/services/voting_service.py:128-238 | checks in the source order, then the vote, then finalization when the count is complete |
| `Services.RoomServices.HandleVotingTimeout` | app/services/voting_service.py:61-71 | the callback finalizes only the round it was started for, and only in VOTING |
| `Services.RoomServices.GetVotingStatus` | app/services/voting_service.py:85-126 | in a sound voting room votes_remaining is the number of active members who have not voted, and submitted plus remaining is the total, so the clamp at 0 is never used; has_voted tells whether the asking user has a vote in this round, and is absent when nobody asks |
| `Changes.VoteEndsWithTheLast` | app/services/voting_service.py:209-238 | after an accepted vote the room is still VOTING exactly when another panel member has not voted, whatever the votes say; then only the vote was added, and otherwise everybody without a Yes vote is out and the room goes on exactly when somebody voted Yes |
| `QuestioningVoting.VotePigeonhole` | app/services/voting_service.py:209-236 | the votes of the round inject into the active audience: their count reaches the number of voters exactly when every active member has voted |
| `QuestioningVoting.SubmitVoteKeeps` | app/services/voting_service.py:128-238 | a vote, also the one that finalizes, keeps the room invariant and lowers the steps left |
| `QuestioningVoting.TallyRows` | app/services/voting_service.py:266-321 | after the commit the active audience is exactly the Yes voters, everybody else of the panel is ELIMINATED with `left_at` set, and the challenger stays exactly when someone does |
| `QuestioningVoting.FinalizeKeeps` | app/services/voting_service.py:240-354 | finalizing with some or all votes in leads to a sound ONE_ON_ONE room with its question timer, or to a sound COMPLETED one |
| `Outcomes.EliminationPartition` | app/services/voting_service.py:287-319 | the panel splits into Yes voters (untouched) and all others (out, users WAITING); the challenger is released iff no one survives |
| `Outcomes.FinalizeResumes` | app/services/voting_service.py:256-354 | finalization run again from ELIMINATION after the tally commit changes no row of it and reaches the same state as the uninterrupted run |
| `Finalizers.StepKeepsInv` | app/services/voting_service.py:240-354 | every segment between two awaits, of any number of concurrent calls with votes arriving in between, keeps the phase where the lock holder left it |
| `Finalizers.TalliedOnce` | app/services/voting_service.py:253-321 | in every interleaving the tally is committed at most once; once a call has returned it has been, and what the room entered equals finalizing in one step with every vote accepted so far |
| `Finalizers.AcceptedVotesCount` | app/services/voting_service.py:188-238 | a vote accepted at any moment of a run was accepted before the tally, is among the votes it counts, and is the choice the tally reads of its voter |
| `Finalizers.LateCallsChangeNothing` | app/services/voting_service.py:250-257 | once the next phase has begun no call of finalize_voting, nor a late vote or voting timer, changes a row, a user or the timer of that phase |
| `Finalizers.OutcomeIsLater` | app/services/voting_service.py:347-354 | what a race of calls leads to is a sound room past its public vote |
| `Finalizers.OtherServicesProceed` | app/services/one_on_one_service.py:491-736 | no step of any service brings the public vote or its timer back to such a room, which is all the racing calls rely on |
| `Finalizers.SomeCallAdvances` | app/services/voting_service.py:253-259 | no deadlock on the lock: while some call has not returned, resuming the holder, or a waiting call when there is none, brings it nearer to its end |
| `Finalizers.RacesEndWell` | app/services/voting_service.py:240-354 | what a race of calls leads to satisfies the room invariant with its timer running |
| `Services.RoomServices.InitializeSessions` | app/services/one_on_one_service.py:213-294 | one session for each audience member present, in (joined_at, user id) order, the first ACTIVE with its question timer; existing sessions are left alone |
| `Services.RoomServices.ActivateFirstLive` | app/services/one_on_one_service.py:648-659 | the loop over pending sessions closes stale ones and activates the first live one, and stops there |
| `Services.RoomServices.ActivateNextSession` | app/services/one_on_one_service.py:612-736 | nothing while a session is in progress; otherwise the next session with its timer, or the end of the phase |
| `Services.RoomServices.CloseSessions` | app/services/one_on_one_service.py:690-736 | the end of the phase branches on the number of finalists |
| `Services.RoomServices.SubmitSessionVote` | app/services/one_on_one_service.py:491-610 | checks in the source order; the session completes, a No releases and a Yes promotes its audience member, and the next session is looked for |
| `Services.RoomServices.HandleQuestionTimeout` | app/services/one_on_one_service.py:121-166 | an unasked active session is closed, its audience member released, and the next session looked for |
| `SessionSteps.RollIsBijection` | app/services/one_on_one_service.py:231-253 | sessions are a bijection with the survivors of the public vote |
| `SessionSteps.SessionTimerTells` | app/services/one_on_one_service.py:54-115 | a registered session timer names the session whose turn it is, at the stage (question, answer, vote) its kind says |
| `SessionSteps.OnlyCurrentInProgress` | app/services/one_on_one_service.py:296-311 | a session in progress is the current one, its room is in ONE_ON_ONE and its timer is the registered one |
| `RoomRuns.AtMostOneInProgress` | app/services/one_on_one_service.py:296-311 | the lookup of the session in progress never finds two |
| `RoomRuns.MissingChecksMatter` | app/services/one_on_one_service.py:168-183 | on an arbitrary room the answer timeout differs from one with its siblings' checks exactly for an unanswered session that is not ACTIVE or has no question |
| `RoomRuns.AnswerTimeoutNeedsNoChecks` | app/services/one_on_one_service.py:168-183 | in every reachable room the answer timeout acts on an ACTIVE session with a question and no answer, so the checks it lacks change nothing |
| `Changes.ExchangeChanges` | app/services/one_on_one_service.py:332-489 | a private question or answer fills one column of the current session, trimmed, and starts the next timer of that session; nothing else changes |
| `Changes.SessionVoteChanges` | app/services/one_on_one_service.py:491-736 | the whole new state after a session vote: its session, its member's row and user, then the next session with its timer or, after the last, the final selection, the match or the release of the challenger, as the number of Yes votes says |
| `Changes.SessionsFollowArrival` | app/services/one_on_one_service.py:231-253 | sessions follow one another in the order their members joined the room, by user id among those who joined at once |
| `SessionSteps.SubmitSessionVoteKeeps` | app/services/one_on_one_service.py:491-610 | a session vote, with whatever it leads to, keeps the room invariant and lowers the steps left |
| `SessionSteps.QuestionTimeoutKeeps` | app/services/one_on_one_service.py:121-166 | so does the question timeout |
| `SessionSteps.AnswerTimeoutKeeps` | app/services/one_on_one_service.py:168-200 | so does the answer timeout |
| `SessionSteps.VoteTimeoutKeeps` | app/services/one_on_one_service.py:202-211 | so does the vote timeout |
| `Outcomes.ColumnsInOrder` | app/services/one_on_one_service.py:332-530 | in every phase and every session a vote is set only with an answer, and an answer only with a question |
| `Outcomes.FinalistsAddUp` | app/services/one_on_one_service.py:693-700 | when every session is over the finalists are exactly the audience whose session vote was Yes, the others are eliminated, and both together are the number of sessions |
| `Outcomes.EndFollowsVotes` | app/services/one_on_one_service.py:690-736 | every completed room had one session for each survivor of the public vote; it has a match exactly when some session vote is Yes, with one who said Yes, and everybody else of the audience is ELIMINATED |
| `Outcomes.OutcomeByCount` | app/services/one_on_one_service.py:700-736 | that number alone decides: FINAL_SELECTION, a match with the one Yes voter, or COMPLETED with the challenger released |
| `Services.RoomServices.CreateMatch` | app/services/match_service.py:150-332 | the timer is cancelled before any check; then checks in the source order, the match, the selected pair, and the other finalists released |
| `Services.RoomServices.CreateMatchForSingleSurvivor` | app/services/match_service.py:334-425 | the automatic match of the only finalist |
| `Services.RoomServices.HandleFinalSelectionTimeout` | app/services/match_service.py:75-100 | the timeout chooses a finalist whenever there is one |
| `SessionSteps.CreateMatchKeeps` | app/services/match_service.py:150-332 | an accepted choice completes the room with exactly two SELECTED rows; a refused one costs at most the final-selection timer |
| `Changes.ChoiceChanges` | app/services/match_service.py:150-332 | the whole new state after a choice: the match, both rows SELECTED and both users MATCHED, every other finalist out and WAITING, nobody else changed; a refused choice changes nothing but the final-selection timer |
| `RoomRuns.FinalTimeoutSucceeds` | app/services/match_service.py:75-100 | FINAL_SELECTION always has two finalists or more, so the timeout never returns empty-handed and its match is always accepted |
| `Outcomes.ShortcutRefinesFinalSelection` | app/services/match_service.py:334-425 | matching the only finalist directly reaches the same match, participants, users, match room, timer and state as going through FINAL_SELECTION, differing by one history row |
| `RoomRuns.StepKeeps` | app/services/one_on_one_service.py:491-736 | every submission and expiry keeps the joint invariant over state, participant rows, sessions and the one timer; an accepted step leaves a timer running unless the room is over, and strictly lowers the measure; a refused one changes no row |
| `Changes.ExpiryChanges` | app/services/one_on_one_service.py:121-211 | what the expiry of each of the six kinds of timer does to a reachable room: placeholders, the count of the votes cast, a session ended without a vote or with a No, a placeholder answer, or a match with a finalist |
| `RoomRuns.TimerTellsPhase` | app/services/timer_service.py:45-92 | the kind of a registered timer determines the phase of its room |
| `RoomRuns.NoStall` | app/services/match_service.py:75-100 | from any started, unfinished room timer expiries alone reach COMPLETED exactly when its timer is registered, and the only room without one is in FINAL_SELECTION after a refused choice |
| `Turns.ChoiceFinishesOrStalls` | app/services/match_service.py:166-216 | after a request to choose the timers alone complete the room exactly when it came from the challenger and named a finalist: the timer is cancelled before those checks |
| `Turns.ChoosingOneselfStalls` | app/services/match_service.py:166-195 | the input that shows it: a challenger who names themselves is refused, and no timer ever ends FINAL_SELECTION |
| `Services.RoomServices.Handle` | app/services/one_on_one_service.py:332-610 | a player request carried out in place keeps a sound room sound and, when accepted, lowers what is left to do |
| `Services.RoomServices.ExpireTimer` | app/services/timer_service.py:143-158 | an expiry carried out in place does the same |
| `LongestRuns.BoundIsExact` | app/services/one_on_one_service.py:612-736 | a room that has just entered QUESTIONING with A audience members accepts at most N+4A+1 steps, and that many are possible exactly when A is at least 2 and the settings admit a question at all |
| `Turns.TurnsAreExact` | app/services/one_on_one_service.py:332-610 | a reachable room accepts a request exactly when it is the one the room waits for, from the user whose turn it is; no duplicate or out-of-order submission of any phase gets through |
| `Changes.RefusalsSayWhy` | app/services/one_on_one_service.py:332-530 | in a reachable room every refusal is the error its phase, its person or its text calls for, three of the duplicate checks never fail, and a refusal changes nothing, the timer of a refused choice apart |
| `Audit.AcceptedIsRecorded` | app/services/questioning_service.py:224-236 | an accepted answer, vote, question, private answer, session vote or choice is in the rows under its submitter afterwards, and the finalization, next session or completion it sets off does not overwrite it |
| `Timers.StepKeepsInv` | app/services/timer_service.py:45-168 | every segment of every task keeps: the registry holds exactly the tasks that wait uncancelled, one per room, and no running callback is cancelled |
| `Timers.RunKeepsInv` | app/services/timer_service.py:39-168 | so it holds after any interleaving of starts, cancellations, wake-ups and callbacks |
| `Timers.OnePendingTask` | app/services/timer_service.py:45-92 | at most one uncancelled sleeping task per room, and it is the registered one |
| `Timers.ExpiryRemovesOwnRecord` | app/services/timer_service.py:151-155 | the unconditional pop on expiry removes the task's own record |
| `Timers.FinallyRemovesNothing` | app/services/timer_service.py:165-168 | the finally block never removes a record, a successor's in particular |
| `Timers.CallbacksAreNotCancelled` | app/services/timer_service.py:94-108 | cancel_timer and start_timer never reach a callback that has begun |
| `Timers.CancelledNeverCalls` | app/services/timer_service.py:150-163 | a cancelled task never runs its callback, however the run goes on |
| `Timers.RoomsSeeOneTimer` | app/services/timer_service.py:45-108 | the task kernel refines one optional timer per room, the view all room services take of it |
| `Timers.RegisteredIsNotDone` | app/services/timer_service.py:115-116 | the extra check for a finished task in get_timer_info never matters |
| `Timers.TimerService.StartTimer` | app/services/timer_service.py:45-92 | replaces and cancels whatever timer the room had; the new task is registered with the given kind, start and duration, and waits |
| `Timers.TimerService.CancelTimer` | app/services/timer_service.py:94-108 | removes the record and cancels its task exactly when the kind fits, and tells whether it did |
| `Timers.TimerService.GetTimerInfo` | app/services/timer_service.py:110-141 | reports exactly the registered timer, with its duration, start and expiry; the remaining time is what is left until the expiry and 0 from then on |
| `Timers.TimerService.Expire` | app/services/timer_service.py:150-163 | a sleep that ends leaves the task in its callback exactly when it was not cancelled, and finished otherwise |
| `Timers.TimerService.Leave` | app/services/timer_service.py:165-168 | the finally block, on any registry; on a sound one it leaves the registry alone |
| `Timers.UncancelledTasksCall` | app/services/timer_service.py:150-163 | a task whose sleep ends runs its callback exactly when it was not cancelled, and can then finish |
| `Timers.TasksMoveForward` | app/services/timer_service.py:143-168 | a task goes through its phases one at a time unless cancelled, never back; its room, kind, start and duration never change, and it is cancelled only before its callback |
| `Timers.DoneHasCalled` | app/services/timer_service.py:143-168 | over whole runs from an empty registry: a finished task was cancelled or ran its callback |
| `Matchmaker.Store.Add` | app/services/queue_manager.py:38-49 | refuses only COMPLETED users; otherwise the user is QUEUED with the current timestamp and nobody else changes |
| `Matchmaker.Store.Remove` | app/services/queue_manager.py:51-57 | WAITING, and no queue timestamp |
| `Matchmaker.Store.GetSize` | app/services/queue_manager.py:59-67 | the length of the FIFO listing |
| `Queue.WhoIsQueued` | app/services/queue_manager.py:69-76 | the FIFO listing of a gender holds exactly its QUEUED users |
| `Queue.QueueIsFifo` | app/services/queue_manager.py:180-193 | of two queued users the one with the smaller `queued_at` stands first, and of two with the same the one with the smaller id |
| `Queue.LateComersWait` | app/services/queue_manager.py:38-49 | somebody added later than everybody in the queue comes out last, the order before them and the other queue unchanged |
| `Matchmaker.Store.SelectForRoom` | app/services/queue_manager.py:180-193 | exactly the first `count` of the FIFO order |
| `Matchmaker.Store.PopMany` | app/services/queue_manager.py:78-93 | takes exactly a prefix of the FIFO order, sets those users IN_GAME without a queue timestamp, and leaves everybody else and the order of the rest alone |
| `Matchmaker.Store.SelectQuestions` | app/services/question_service.py:99-116 | N distinct questions, each active and aimed at nobody in particular or at the challenger's gender, or an error exactly when there are fewer such questions |
| `Matchmaker.Store.CreateRoomWithParticipants` | app/services/room_manager.py:39-124 | the room with its rows and the users' states, or, on a shortage or a store failure, nothing at all; its questions are active and suit the challenger's gender |
| `Matchmaker.Store.FormRoom` | app/services/queue_manager.py:139-166 | either branch of the loop body takes the oldest challenger and the t oldest of the other queue |
| `Matchmaker.Store.TryCreateRooms` | app/services/queue_manager.py:99-174 | the loop makes exactly the rooms of the pass under consecutive ids, takes exactly their people, and leaves the rest of both queues in order |
| `Matchmaker.FormationOutcome` | app/services/queue_manager.py:127-174 | a pass makes as many rooms as the closed form says, each queue loses a prefix, and with enough questions neither formation condition holds afterwards |
| `Queue.ClosedForm` | app/services/queue_manager.py:127-169 | the i-th room of a pass: first min(m/t, f) female-challenger rooms, then min((f-a)/t, m-at) male-challenger rooms, each from the next consecutive segments of the two FIFO queues; a shortage stops the pass at the first room of its kind |
| `Queue.RoomCounts` | app/services/queue_manager.py:127-169 | the counts in ordinary division |
| `Queue.PassLeaves` | app/services/queue_manager.py:127-193 | what a pass leaves is the rest of each queue after its consumed prefix, unchanged in order |
| `Optimality.PassIsBestExactly` | app/services/queue_manager.py:107-117 | a pass makes as many rooms as could be arranged at all from the people in the two queues exactly when t is 1, or it makes no female-challenger room, or it leaves fewer than 2t-1 females; an arrangement is any list of rooms of opposite genders that share nobody |
| `Optimality.FormationIsBestExactly` | app/services/queue_manager.py:107-117 | the promise of "as many rooms as the queue state allows", with enough questions, holds exactly under that condition on the queue lengths and the threshold |
| `Optimality.PassIsBestInNumbers` | app/services/queue_manager.py:127-169 | the same in numbers: no a and b with a*t + b <= m and a + b*t <= f exceed the pass exactly when there is no gain |
| `Optimality.FifteenEach` | app/services/queue_manager.py:107-117 | the input that shows the promise failing: of any 15 men and 15 women a pass with t = 5 makes three rooms, and an arrangement of four is given |
| `Formation.PassApart` | app/services/queue_manager.py:139-166 | the rooms of a pass share nobody and take queued users only |
| `Formation.RolesAreOpposite` | app/services/queue_manager.py:139-166 | every room has a queued challenger of one gender and a queued audience of the other |
| `Contacts.MatchRoomService.SubmitContact` | app/services/match_room_service.py:120-279 | checks in the source order; an accepted submission stores each handle under its own name, trimmed, and absent exactly when not given or blank; the second one completes match room, match and both users |
| `Contacts.MatchRoomService.GetContactsStatus` | app/services/match_room_service.py:73-118 | a participant sees the partner's contact exactly when both have submitted; others are refused |
| `Contacts.SubmissionIsAccepted` | app/services/match_room_service.py:134-174 | accepted exactly from a participant, while the room waits, with a handle that is not blank, none too long once trimmed, and none submitted before; the first check to fail names the error |
| `Contacts.SubmissionStores` | app/services/match_room_service.py:145-188 | the stored contact is the submitter's; WhatsApp is present exactly when the submitted WhatsApp has a non-space character, and is then its trimmed text; the same for Snapchat |
| `Contacts.SubmissionCompletes` | app/services/match_room_service.py:224-245 | the submission that finds the partner's contact, and no other, completes match room, match and both users; no other user changes |
| `Contacts.PartnerIsShown` | app/services/match_room_service.py:73-188 | after any submissions a participant is shown nothing until both have made an acceptable one, and then exactly what the partner's first acceptable one said, handle by handle |
| `Contacts.ExchangeOutcome` | app/services/match_room_service.py:120-279 | the end of any submission sequence is fixed by the first valid contact of each participant, whoever came first |
| `Contacts.OrderIsIrrelevant` | app/services/match_room_service.py:188-245 | two submission sequences in which each participant's first valid contact is the same end alike: same states, users, contacts, and the same shown to each |
| `Contacts.Reveals` | app/services/match_room_service.py:73-118 | the exchange is COMPLETED, with its match, exactly when both contacts are in, and each side then and only then sees precisely the other's |
| `World.StepMovesOn` | app/services/one_on_one_service.py:491-610 | a step of one room moves exactly the users whose rows it closes or selects, and leaves every row and user in agreement |
| `Effects.StepEffect` | app/services/voting_service.py:287-319 | whatever a step does, the released users wait, the selected are matched, and nobody else's user row changes |
| `Formation.FormationConsistent` | app/services/queue_manager.py:127-174 | a formation pass keeps the world consistent: its rooms are sound and it seats nobody who has a seat |
| `AutomaticRuns.AddIsSafeExactlyOutsideGames` | app/services/queue_manager.py:38-49 | for a user who has not completed the event, add keeps the world consistent exactly when the user is neither IN_GAME nor MATCHED, which neither it nor the rejoin endpoint checks |
| `AutomaticRuns.NextConsistent` | app/api/queue.py:70-98 | every event keeps all rooms, timers and users consistent with one another, with one exact exception: a rejoin by somebody IN_GAME or MATCHED, after which they are not |
| `AutomaticRuns.RunConsistent` | app/api/queue.py:19-98 | all worlds of a run, of any length and with any number of rooms, are consistent exactly when nobody in it rejoins the queue from a game or a match |
| `Rejoining.RejoiningFromAGame` | app/api/queue.py:70-98 | the input that shows it: two people join with t = 1 and are seated, the first rejoins, and the world is no longer consistent |
| `AutomaticRuns.RoomsEndAsVoted` | app/services/one_on_one_service.py:690-736 | in a consistent world every session has its columns in order, and every completed room ended as its session votes say |
| `RunBounds.RunIsSound` | app/services/room_state_service.py:45-185 | in every world of every run, rejoins out of a game included, every room keeps its invariant and its timer fits its stage |
| `AutomaticRuns.StatesAreSeats` | app/services/match_service.py:229-262 | a user is IN_GAME iff they have an open row in a room that is not COMPLETED, MATCHED or COMPLETED iff they hold a SELECTED row, COMPLETED iff that match has both contacts, QUEUED iff `queued_at` is set; nobody has two open rows |
| `AutomaticRuns.RowsOfARoom` | app/services/match_service.py:229-262 | `left_at` is set iff the status is ELIMINATED, and the SELECTED rows are those of the two matched people |
| `RunBounds.StepsAreBounded` | app/services/one_on_one_service.py:612-736 | in every run, rejoins out of a game included, a room with A audience members accepts at most N+4A+1 player and timer steps, and what it has accepted comes off what it still can |
| `RunBounds.NextRests` | app/services/queue_manager.py:99-174 | with enough questions, after every event no room is formable, one arrival forms at most one room, and a departure, a re-entry by somebody queued or a finished game forms none |
| `RunBounds.RunRests` | app/services/queue_manager.py:99-174 | so no further room is possible in any world any run reaches |
| `Registry.WebSocketManager.Connect` | app/services/websocket_manager.py:64-67 | adds exactly one (room, user, socket) triple |
| `Registry.WebSocketManager.Disconnect` | app/services/websocket_manager.py:69-82 | removes exactly the triple, or all of the user's in that room, and leaves no empty entry |
| `Registry.TidyIsCanonical` | app/services/websocket_manager.py:30-33 | a registry without empty entries is fixed by the set of triples it stands for |
| `Registry.WebSocketManager.SendToUsers` | app/services/websocket_manager.py:117-129 | reaches exactly the sockets of the listed users in the room |
| `Registry.WebSocketManager.Broadcast` | app/services/websocket_manager.py:131-151 | reaches exactly the sockets connected in the room |

## Left out

- HTTP routing, request schemas, authentication, logging, migrations, and the creation, update and deletion of questions: plumbing, with the pool of questions a parameter.
- Message texts and the sends themselves: `Registry` keeps who would receive a message, the room services do not send.
- Room ids, user ids and matches that do not exist (404 answers): a call is given a room and a user that exist, except that an event for an unknown room changes nothing.
- Database sessions: the store is one shared truth, a commit is the atomic point and a rollback restores what was before; stale reads across sessions are not modelled.
- Clock time: timestamps are abstract, durations are whole units, and any registered timer may expire at any time; which setting gives a phase its duration is left open.
- `started_at`, `answered_at`, `completed_at` and the other timestamp columns that no decision reads.
- Session ids: a session is named by its room and sequence number; a request with another room's session id is the SESSION_NOT_FOUND case.
- `challenger_id` is never null, as in every room made by `create_room_with_participants`.
- The session states ANSWERED, ACCEPTED and REJECTED, the match state CANCELLED, the match-room state CONTACTS_EXCHANGED and the room states WAITING and FINAL: declared by the code, entered by no modelled call outside `Audit`.
- The scaffolds `create_room`, `add_participant`, `remove_participant`, `set_state` and `determine_next_elimination_state`: they bypass the protocol.
- Evictions from the queue, and store failures, in the middle of a formation pass: none happen between the count and the selection; a store failure inside one room's creation is modelled in `CreateRoomWithParticipants`.
- Exceptions raised by a callback or a send.
- The per-room locks of sessions and matches: their critical sections are atomic steps here; the finalization lock is modelled.
- Matchmaker.Store.SelectQuestions: the draw is an arbitrary choice of distinct questions, not a uniformly random one.
- Finalizers.LateCallsChangeNothing: other services act on the room only after the next phase's entry actions have run, since none of their requests is accepted before.
- The match-room and queue socket channels, which hold one socket per user.
