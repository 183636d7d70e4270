/** The enumerations, table rows and settings shared by every service. */
module Domain {
  type UserId = nat
  type RoomId = nat
  type QuestionId = nat
  type Time = nat

  datatype Option<+T> = None | Some(value: T)

  datatype Gender = Male | Female

  function Opposite(g: Gender): Gender {
    if g.Male? then Female else Male
  }

  datatype UserState = Waiting | Queued | InGame | Matched | Completed

  /** A row of the users table; its key is the user id. */
  datatype User = User(gender: Gender, state: UserState, queuedAt: Option<Time>)

  datatype RoomState =
    | Waiting | Ready | Intro | Questioning | Voting | Elimination
    | OneOnOne | FinalSelection | Final | Matched | Completed

  datatype Role = Challenger | Audience

  datatype Status = Active | Eliminated | Finalist | Selected

  /** A row of room_participants; its key is the user id within the room. */
  datatype Member = Member(role: Role, status: Status, joinedAt: Time, leftAt: Option<Time>)

  datatype Choice = Yes | No

  datatype Vote = Vote(round: nat, voter: UserId, choice: Choice)

  datatype Answer = Answer(question: QuestionId, user: UserId, text: string)

  datatype SessionState = Pending | Active | Answered | Voting | Accepted | Rejected | Completed

  /** A row of one_on_one_sessions; its id is its sequence number within the room. */
  datatype Session = Session(
    audience: UserId,
    challenger: UserId,
    sequence: nat,
    state: SessionState,
    question: Option<string>,
    answer: Option<string>,
    vote: Option<Choice>)

  datatype Move = Move(source: RoomState, target: RoomState)

  datatype Contact = Contact(user: UserId, whatsapp: Option<string>, snapchat: Option<string>)

  datatype MatchStatus = Created | Completed | Cancelled

  datatype MatchRoomState = WaitingForContacts | ContactsExchanged | Completed

  /** A matches row together with the match_rooms row and the contacts that hang off it. */
  datatype Pairing = Pairing(
    challenger: UserId,
    audience: UserId,
    status: MatchStatus,
    state: MatchRoomState,
    contacts: seq<Contact>)

  /** A rooms row together with the rows of the other tables that carry its room id. */
  datatype Room = Room(
    state: RoomState,
    challenger: UserId,
    round: nat,
    question: Option<QuestionId>,
    questions: seq<QuestionId>,
    members: map<UserId, Member>,
    answers: seq<Answer>,
    votes: seq<Vote>,
    sessions: seq<Session>,
    pairing: Option<Pairing>,
    history: seq<Move>)

  datatype TimerKind =
    | QuestioningTimer | VotingTimer | AskTimer | ReplyTimer | JudgeTimer | FinalTimer

  /** The part of an ActiveTimer record that its timeout callback also captures. */
  datatype Timer = Timer(kind: TimerKind, session: Option<nat>, round: Option<nat>)

  datatype Question = Question(target: Option<Gender>, active: bool)

  /** The settings the services read. */
  datatype Config = Config(rounds: nat, threshold: nat, questionMax: nat, contactMax: nat)

  ghost predicate Sensible(c: Config) {
    c.rounds >= 1 && c.threshold >= 1
  }

  datatype Error =
    | InvalidTransition
    | InvalidAnswerSubmission | NotChallenger | DuplicateAnswer
    | InvalidVotingState | InvalidVoter | DuplicateVote
    | SessionNotFound | SessionUnauthorized | InvalidSessionState | InvalidPayload
    | DuplicateSessionQuestion | DuplicateSessionAnswer | DuplicateSessionVote
    | InvalidFinalSelectionState | FinalSelectionUnauthorized | NotEligibleFinalist | MatchAlreadyExists
    | MatchRoomUnauthorized | InvalidMatchRoomState | InvalidContactPayload | DuplicateContact
    | UserAlreadyCompleted | InsufficientQuestions | StorageFailure
    | NotPossible

  const NO_RESPONSE: string := "[No Response]"
}
