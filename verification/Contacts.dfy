/** The private contact exchange between two matched users. */
module Contacts {
  import opened Domain
  import opened Protocol
  import opened Text

  datatype Submission = Submission(user: UserId, whatsapp: Option<string>, snapchat: Option<string>)

  /** The state a submission reads and writes. */
  datatype Exchange = Exchange(pairing: Pairing, users: map<UserId, User>)

  datatype Outcome = Done(next: Exchange) | Denied(error: Error)

  predicate IsParty(p: Pairing, u: UserId) {
    u == p.challenger || u == p.audience
  }

  function Partner(p: Pairing, u: UserId): UserId {
    if u == p.challenger then p.audience else p.challenger
  }

  /** A handle without surrounding blanks; a blank one counts as not given. */
  function Clean(handle: Option<string>): Option<string> {
    if handle.Some? && Strip(handle.value) != "" then Some(Strip(handle.value)) else None
  }

  function CleanContact(s: Submission): Contact {
    Contact(s.user, Clean(s.whatsapp), Clean(s.snapchat))
  }

  predicate TooLong(c: Config, handle: Option<string>) {
    handle.Some? && |handle.value| > c.contactMax
  }

  /** At least one handle, and none too long. */
  predicate IsValid(c: Config, x: Contact) {
    (x.whatsapp.Some? || x.snapchat.Some?) && !TooLong(c, x.whatsapp) && !TooLong(c, x.snapchat)
  }

  function ContactOf(contacts: seq<Contact>, u: UserId): Option<Contact> {
    if contacts == [] then None
    else if contacts[0].user == u then Some(contacts[0])
    else ContactOf(contacts[1..], u)
  }

  function SubmissionError(c: Config, p: Pairing, s: Submission): Option<Error> {
    if !IsParty(p, s.user) then Some(MatchRoomUnauthorized)
    else if !p.state.WaitingForContacts? then Some(InvalidMatchRoomState)
    else if !IsValid(c, CleanContact(s)) then Some(InvalidContactPayload)
    else if ContactOf(p.contacts, s.user).Some? then Some(DuplicateContact)
    else None
  }

  /** submit_contact, as a function: the second contact completes the exchange, the match and both users. */
  function Submit(c: Config, e: Exchange, s: Submission): Outcome {
    var p := e.pairing;
    var error := SubmissionError(c, p, s);
    if error.Some? then Denied(error.value)
    else
      var q := p.(contacts := p.contacts + [CleanContact(s)]);
      if |q.contacts| == 2 then
        Done(Exchange(q.(state := MatchRoomState.Completed, status := MatchStatus.Completed),
                          WithState(e.users, {p.challenger, p.audience}, UserState.Completed)))
      else Done(e.(pairing := q))
  }

  /** get_contacts_status: the partner's contact, once the match room's state releases it. */
  function Revealed(p: Pairing, u: UserId): Option<Contact> {
    if p.state.ContactsExchanged? || p.state.Completed? then ContactOf(p.contacts, Partner(p, u)) else None
  }

  ghost predicate ExchangeInv(p: Pairing) {
    && p.challenger != p.audience
    && |p.contacts| <= 2
    && (forall i | 0 <= i < |p.contacts| :: IsParty(p, p.contacts[i].user))
    && (|p.contacts| == 2 ==> p.contacts[0].user != p.contacts[1].user)
    && (if |p.contacts| == 2 then p.state.Completed? && p.status.Completed?
        else p.state.WaitingForContacts? && p.status.Created?)
  }

  /** A handle with something in it. */
  predicate Filled(handle: Option<string>) {
    handle.Some? && exists i | 0 <= i < |handle.value| :: !IsSpace(handle.value[i])
  }

  lemma CleanIs(handle: Option<string>)
    ensures Clean(handle).Some? <==> Filled(handle)
    ensures Filled(handle) ==> Clean(handle).value == Strip(handle.value)
    ensures handle.Some? && !Filled(handle) ==> Strip(handle.value) == ""
  {
    if handle.Some? {
      var t := handle.value;
      assert Strip(t) == "" <==> forall ch | ch in t :: IsSpace(ch);
      assert (forall ch | ch in t :: IsSpace(ch)) <==> forall i | 0 <= i < |t| :: IsSpace(t[i]);
    }
  }

  /** What submit_contact checks of the two handles. */
  predicate Acceptable(c: Config, s: Submission) {
    && (Filled(s.whatsapp) || Filled(s.snapchat))
    && (s.whatsapp.Some? ==> |Strip(s.whatsapp.value)| <= c.contactMax)
    && (s.snapchat.Some? ==> |Strip(s.snapchat.value)| <= c.contactMax)
  }

  lemma FitsIs(c: Config, handle: Option<string>)
    ensures Clean(handle).Some? <==> Filled(handle)
    ensures TooLong(c, Clean(handle)) <==> handle.Some? && |Strip(handle.value)| > c.contactMax
  {
    CleanIs(handle);
    hide Strip, Filled;
  }

  lemma AcceptableIs(c: Config, s: Submission)
    ensures IsValid(c, CleanContact(s)) <==> Acceptable(c, s)
  {
    FitsIs(c, s.whatsapp);
    FitsIs(c, s.snapchat);
    hide Strip, Filled, Clean, TooLong;
  }

  lemma {:induction false} WhoGave(contacts: seq<Contact>, u: UserId)
    ensures ContactOf(contacts, u).None? <==> forall x | x in contacts :: x.user != u
    ensures ContactOf(contacts, u).Some? ==> ContactOf(contacts, u).value in contacts && ContactOf(contacts, u).value.user == u
  {
    if contacts != [] {
      WhoGave(contacts[1..], u);
      assert contacts == [contacts[0]] + contacts[1..];
    }
  }

  /**
   Which submissions are accepted: those of a participant, while the room waits for contacts, with at
   least one handle that is not blank and none that is longer than allowed once trimmed, from somebody
   who has not submitted yet.  The first of these that fails names the error.
   */
  lemma SubmissionIsAccepted(c: Config, e: Exchange, s: Submission)
    ensures var p := e.pairing;
      var party := s.user == p.challenger || s.user == p.audience;
      var waiting := p.state.WaitingForContacts?;
      var given := (s.whatsapp.Some? && exists ch :: ch in s.whatsapp.value && !IsSpace(ch))
                || (s.snapchat.Some? && exists ch :: ch in s.snapchat.value && !IsSpace(ch));
      var fits := (s.whatsapp.Some? ==> |Strip(s.whatsapp.value)| <= c.contactMax)
               && (s.snapchat.Some? ==> |Strip(s.snapchat.value)| <= c.contactMax);
      var first := forall x | x in p.contacts :: x.user != s.user;
      && (Submit(c, e, s).Done? <==> party && waiting && given && fits && first)
      && (Submit(c, e, s).Denied? ==>
           Submit(c, e, s).error == if !party then MatchRoomUnauthorized else if !waiting then InvalidMatchRoomState
                                    else if !given || !fits then InvalidContactPayload else DuplicateContact)
  {
    AcceptableIs(c, s);
    WhoGave(e.pairing.contacts, s.user);
    FilledByChar(s.whatsapp);
    FilledByChar(s.snapchat);
    hide Strip, ContactOf, CleanContact, Filled, IsValid, WithState;
  }

  lemma FilledByChar(handle: Option<string>)
    ensures Filled(handle) <==> handle.Some? && exists ch :: ch in handle.value && !IsSpace(ch)
  {
    if handle.Some? {
      if ch :| ch in handle.value && !IsSpace(ch) {
        var i :| 0 <= i < |handle.value| && handle.value[i] == ch;
      }
      if Filled(handle) {
        var i :| 0 <= i < |handle.value| && !IsSpace(handle.value[i]);
        assert handle.value[i] in handle.value;
      }
    }
  }

  /**
   What an accepted submission stores, after everything stored before: the submitter's two handles, each
   under its own name and trimmed, and absent exactly when it was not given or blank.
   */
  lemma SubmissionStores(c: Config, e: Exchange, s: Submission)
    requires Submit(c, e, s).Done?
    ensures var before := e.pairing.contacts; var after := Submit(c, e, s).next.pairing.contacts;
      && |after| == |before| + 1 && before <= after
      && var x := after[|before|];
         && x.user == s.user
         && (x.whatsapp.Some? <==> s.whatsapp.Some? && exists ch :: ch in s.whatsapp.value && !IsSpace(ch))
         && (x.whatsapp.Some? ==> x.whatsapp.value == Strip(s.whatsapp.value))
         && (x.snapchat.Some? <==> s.snapchat.Some? && exists ch :: ch in s.snapchat.value && !IsSpace(ch))
         && (x.snapchat.Some? ==> x.snapchat.value == Strip(s.snapchat.value))
  {
    CleanIs(s.whatsapp);
    CleanIs(s.snapchat);
    FilledByChar(s.whatsapp);
    FilledByChar(s.snapchat);
    hide Strip, Clean, Filled, SubmissionError, WithState;
  }

  /** The second accepted submission, and no other, ends the exchange: match, match room and both users are completed. */
  lemma SubmissionCompletes(c: Config, e: Exchange, s: Submission)
    requires Submit(c, e, s).Done? && ExchangeInv(e.pairing)
    ensures var p := e.pairing; var t := Submit(c, e, s).next; var both := exists x :: x in p.contacts && x.user != s.user;
      && t.pairing == p.(contacts := t.pairing.contacts, state := t.pairing.state, status := t.pairing.status)
      && (if both then t.pairing.state.Completed? && t.pairing.status.Completed?
          else t.pairing.state.WaitingForContacts? && t.pairing.status.Created?)
      && t.users.Keys == e.users.Keys
      && (forall u | u in e.users ::
           t.users[u] == if both && (u == p.challenger || u == p.audience)
                         then e.users[u].(state := UserState.Completed) else e.users[u])
  {
    hide Strip, ContactOf, CleanContact, IsValid;
    WhoGave(e.pairing.contacts, s.user);
    assert |e.pairing.contacts| == 1 ==> e.pairing.contacts[0] in e.pairing.contacts;
  }

  lemma SubmitKeeps(c: Config, e: Exchange, s: Submission)
    requires ExchangeInv(e.pairing)
    ensures Submit(c, e, s).Done? ==> ExchangeInv(Submit(c, e, s).next.pairing)
  {
  }

  // ----- Whole exchanges -----

  ghost function Run(c: Config, e: Exchange, subs: seq<Submission>): Exchange {
    if subs == [] then e
    else
      var before := Run(c, e, subs[..|subs| - 1]);
      var outcome := Submit(c, before, subs[|subs| - 1]);
      if outcome.Done? then outcome.next else before
  }

  /** The first valid contact a user submits. */
  function FirstValid(c: Config, subs: seq<Submission>, u: UserId): Option<Contact> {
    if subs == [] then None
    else
      var first := FirstValid(c, subs[..|subs| - 1], u);
      var last := subs[|subs| - 1];
      if first.Some? then first
      else if last.user == u && IsValid(c, CleanContact(last)) then Some(CleanContact(last))
      else None
  }

  /** An exchange that holds exactly these contacts of its challenger and its audience member. */
  ghost predicate Holds(p: Pairing, a: Option<Contact>, b: Option<Contact>) {
    ExchangeInv(p) && ContactOf(p.contacts, p.challenger) == a && ContactOf(p.contacts, p.audience) == b
  }

  /** The contact a user has given once a further submission has been looked at. */
  function Given(c: Config, before: Option<Contact>, s: Submission, u: UserId): Option<Contact> {
    if before.Some? then before
    else if s.user == u && IsValid(c, CleanContact(s)) then Some(CleanContact(s))
    else None
  }

  lemma {:induction false} ContactAppended(contacts: seq<Contact>, x: Contact, u: UserId)
    ensures ContactOf(contacts + [x], u) ==
      if ContactOf(contacts, u).Some? then ContactOf(contacts, u) else if x.user == u then Some(x) else None
  {
    if contacts != [] {
      assert (contacts + [x])[1..] == contacts[1..] + [x];
      ContactAppended(contacts[1..], x, u);
    }
  }

  /** Both contacts are there exactly when two are. */
  lemma BothGiven(p: Pairing)
    requires ExchangeInv(p)
    ensures ContactOf(p.contacts, p.challenger).Some? && ContactOf(p.contacts, p.audience).Some? <==> |p.contacts| == 2
    ensures |p.contacts| == 0 <==> ContactOf(p.contacts, p.challenger).None? && ContactOf(p.contacts, p.audience).None?
  {
    var xs := p.contacts;
    if |xs| >= 1 {
      assert IsParty(p, xs[0].user);
      if |xs| == 2 {
        assert xs[1..][0] == xs[1] && IsParty(p, xs[1].user);
      }
    }
  }

  lemma NextSubmission(c: Config, e: Exchange, s: Submission, a: Option<Contact>, b: Option<Contact>)
    requires Holds(e.pairing, a, b)
    ensures var p := e.pairing; var outcome := Submit(c, e, s);
      var next := if outcome.Done? then outcome.next else e;
      && Holds(next.pairing, Given(c, a, s, p.challenger), Given(c, b, s, p.audience))
      && next.pairing.challenger == p.challenger && next.pairing.audience == p.audience
      && next.users == (if |next.pairing.contacts| == 2 && |p.contacts| < 2
                        then WithState(e.users, {p.challenger, p.audience}, UserState.Completed) else e.users)
  {
    hide Strip, WithState;
    BothGiven(e.pairing);
    ContactAppended(e.pairing.contacts, CleanContact(s), e.pairing.challenger);
    ContactAppended(e.pairing.contacts, CleanContact(s), e.pairing.audience);
    SubmitKeeps(c, e, s);
    hide ContactOf, IsValid, ExchangeInv;
  }

  /**
   The end of any run of submissions is fixed by the first valid contact of each participant, whoever
   came first: those are the contacts held, and the two users are completed exactly when both exist.
   */
  lemma {:induction false} ExchangeOutcome(c: Config, e: Exchange, subs: seq<Submission>)
    requires ExchangeInv(e.pairing) && e.pairing.contacts == []
    ensures var end := Run(c, e, subs); var p := end.pairing;
      var a := FirstValid(c, subs, e.pairing.challenger); var b := FirstValid(c, subs, e.pairing.audience);
      && p.challenger == e.pairing.challenger && p.audience == e.pairing.audience
      && Holds(p, a, b)
      && end.users ==
         if a.Some? && b.Some? then WithState(e.users, {p.challenger, p.audience}, UserState.Completed) else e.users
    decreases |subs|
  {
    if subs != [] {
      var n := |subs| - 1;
      ExchangeOutcome(c, e, subs[..n]);
      var before := Run(c, e, subs[..n]);
      var a := FirstValid(c, subs[..n], e.pairing.challenger);
      var b := FirstValid(c, subs[..n], e.pairing.audience);
      hide Strip, WithState, IsValid, Submit, Holds;
      NextSubmission(c, before, subs[n], a, b);
      HoldsBoth(before.pairing, a, b);
      HoldsBoth(Run(c, e, subs).pairing, Given(c, a, subs[n], e.pairing.challenger), Given(c, b, subs[n], e.pairing.audience));
    }
  }

  lemma HoldsBoth(p: Pairing, a: Option<Contact>, b: Option<Contact>)
    requires Holds(p, a, b)
    ensures |p.contacts| <= 2 && (|p.contacts| == 2 <==> a.Some? && b.Some?)
  {
    BothGiven(p);
  }

  /** The match room and the match are completed exactly when both contacts are in; each side sees the other's then, and only then. */
  lemma Reveals(p: Pairing, a: Option<Contact>, b: Option<Contact>)
    requires Holds(p, a, b)
    ensures p.state.Completed? <==> a.Some? && b.Some?
    ensures p.status.Completed? <==> a.Some? && b.Some?
    ensures Revealed(p, p.challenger) == if a.Some? && b.Some? then b else None
    ensures Revealed(p, p.audience) == if a.Some? && b.Some? then a else None
  {
    BothGiven(p);
    hide ContactOf;
  }

  /** x is what v's first acceptable submission, the one at i, leaves: each handle under its own name, trimmed, a blank one left out. */
  ghost predicate Presents(c: Config, subs: seq<Submission>, i: nat, v: UserId, x: Contact) {
    && i < |subs| && subs[i].user == v && Acceptable(c, subs[i])
    && (forall j | 0 <= j < i && subs[j].user == v :: !Acceptable(c, subs[j]))
    && x.user == v
    && (x.whatsapp.Some? <==> Filled(subs[i].whatsapp)) && (x.whatsapp.Some? ==> x.whatsapp.value == Strip(subs[i].whatsapp.value))
    && (x.snapchat.Some? <==> Filled(subs[i].snapchat)) && (x.snapchat.Some? ==> x.snapchat.value == Strip(subs[i].snapchat.value))
  }

  lemma StillPresents(c: Config, subs: seq<Submission>, i: nat, v: UserId, x: Contact)
    requires subs != [] && Presents(c, subs[..|subs| - 1], i, v, x)
    ensures Presents(c, subs, i, v, x)
  {
    hide Acceptable, Strip, Filled;
  }

  lemma LastPresents(c: Config, subs: seq<Submission>, v: UserId)
    requires subs != [] && subs[|subs| - 1].user == v && Acceptable(c, subs[|subs| - 1])
    requires forall i | 0 <= i < |subs| - 1 && subs[i].user == v :: !Acceptable(c, subs[i])
    ensures Presents(c, subs, |subs| - 1, v, CleanContact(subs[|subs| - 1]))
  {
    var n := |subs| - 1;
    CleanIs(subs[n].whatsapp);
    CleanIs(subs[n].snapchat);
    hide Acceptable, Strip, Filled, Clean;
  }

  lemma FirstValidStep(c: Config, subs: seq<Submission>, v: UserId)
    requires subs != []
    ensures var before := FirstValid(c, subs[..|subs| - 1], v); var last := subs[|subs| - 1];
      FirstValid(c, subs, v) ==
        if before.Some? then before else if last.user == v && Acceptable(c, last) then Some(CleanContact(last)) else None
  {
    AcceptableIs(c, subs[|subs| - 1]);
    hide Acceptable, IsValid, CleanContact;
  }

  lemma {:induction false} FirstValidPresents(c: Config, subs: seq<Submission>, v: UserId)
    ensures FirstValid(c, subs, v).None? <==> forall i | 0 <= i < |subs| && subs[i].user == v :: !Acceptable(c, subs[i])
    ensures FirstValid(c, subs, v).Some? ==> exists i :: Presents(c, subs, i, v, FirstValid(c, subs, v).value)
    decreases |subs|
  {
    if subs != [] {
      var n := |subs| - 1;
      var before := subs[..n];
      FirstValidPresents(c, before, v);
      FirstValidStep(c, subs, v);
      hide FirstValid, Acceptable, Presents, CleanContact;
      forall i | 0 <= i < n ensures before[i] == subs[i] {}
      if FirstValid(c, before, v).Some? {
        var i :| Presents(c, before, i, v, FirstValid(c, before, v).value);
        StillPresents(c, subs, i, v, FirstValid(c, before, v).value);
        PresentsIs(c, before, i, v, FirstValid(c, before, v).value);
      } else if FirstValid(c, subs, v).Some? {
        LastPresents(c, subs, v);
      }
    }
  }

  lemma PresentsIs(c: Config, subs: seq<Submission>, i: nat, v: UserId, x: Contact)
    requires Presents(c, subs, i, v, x)
    ensures i < |subs| && subs[i].user == v && Acceptable(c, subs[i])
  {
  }

  /**
   What a participant is shown after any run of submissions: nothing until both participants have made
   an acceptable one, and then what the other's first acceptable submission said.
   */
  lemma PartnerIsShown(c: Config, e: Exchange, subs: seq<Submission>, u: UserId)
    requires ExchangeInv(e.pairing) && e.pairing.contacts == [] && IsParty(e.pairing, u)
    ensures var p := e.pairing; var shown := Revealed(Run(c, e, subs).pairing, u);
      var partner := if u == p.challenger then p.audience else p.challenger;
      && (shown.Some? <==>
           (exists i | 0 <= i < |subs| :: subs[i].user == p.challenger && Acceptable(c, subs[i]))
           && (exists i | 0 <= i < |subs| :: subs[i].user == p.audience && Acceptable(c, subs[i])))
      && (shown.Some? ==> exists i :: Presents(c, subs, i, partner, shown.value))
  {
    ExchangeOutcome(c, e, subs);
    FirstValidPresents(c, subs, e.pairing.challenger);
    FirstValidPresents(c, subs, e.pairing.audience);
    hide FirstValid, Run, Acceptable, Presents;
    var a := FirstValid(c, subs, e.pairing.challenger);
    var b := FirstValid(c, subs, e.pairing.audience);
    Reveals(Run(c, e, subs).pairing, a, b);
    hide Holds, Revealed;
  }

  /**
   Who submits first, and what is submitted in vain, makes no difference: two runs in which each
   participant's first valid contact is the same end with the same states, users and contacts, and show
   each participant the same.
   */
  lemma OrderIsIrrelevant(c: Config, e: Exchange, xs: seq<Submission>, ys: seq<Submission>)
    requires ExchangeInv(e.pairing) && e.pairing.contacts == []
    requires FirstValid(c, xs, e.pairing.challenger) == FirstValid(c, ys, e.pairing.challenger)
    requires FirstValid(c, xs, e.pairing.audience) == FirstValid(c, ys, e.pairing.audience)
    ensures var x := Run(c, e, xs); var y := Run(c, e, ys);
      && x.users == y.users && x.pairing.state == y.pairing.state && x.pairing.status == y.pairing.status
      && (forall u | IsParty(e.pairing, u) ::
            ContactOf(x.pairing.contacts, u) == ContactOf(y.pairing.contacts, u)
            && Revealed(x.pairing, u) == Revealed(y.pairing, u))
  {
    ExchangeOutcome(c, e, xs);
    ExchangeOutcome(c, e, ys);
    var a := FirstValid(c, xs, e.pairing.challenger);
    var b := FirstValid(c, xs, e.pairing.audience);
    hide FirstValid, Run;
    Reveals(Run(c, e, xs).pairing, a, b);
    Reveals(Run(c, e, ys).pairing, a, b);
    StateOf(Run(c, e, xs).pairing, a, b);
    StateOf(Run(c, e, ys).pairing, a, b);
    hide ExchangeInv, Revealed;
  }

  lemma StateOf(p: Pairing, a: Option<Contact>, b: Option<Contact>)
    requires Holds(p, a, b)
    ensures p.state == if a.Some? && b.Some? then MatchRoomState.Completed else WaitingForContacts
    ensures p.status == if a.Some? && b.Some? then MatchStatus.Completed else MatchStatus.Created
  {
    BothGiven(p);
  }

  // ----- The service -----

  class MatchRoomService {
    var challenger: UserId
    var audience: UserId
    var status: MatchStatus
    var state: MatchRoomState
    var contacts: seq<Contact>
    var users: map<UserId, User>

    function Row(): Pairing
      reads this
    {
      Pairing(challenger, audience, status, state, contacts)
    }

    ghost predicate Valid()
      reads this
    {
      ExchangeInv(Row())
    }

    /** create_match_room, for the match of two different users. */
    constructor (challenger: UserId, audience: UserId, users: map<UserId, User>)
      requires challenger != audience
      ensures Valid() && Row() == Pairing(challenger, audience, MatchStatus.Created, WaitingForContacts, [])
      ensures this.users == users
    {
      this.challenger, this.audience := challenger, audience;
      status, state, contacts := MatchStatus.Created, WaitingForContacts, [];
      this.users := users;
    }

    method FindContact(user: UserId) returns (found: Option<Contact>)
      ensures found == ContactOf(contacts, user)
    {
      var i := 0;
      while i < |contacts|
        invariant 0 <= i <= |contacts| && ContactOf(contacts[i..], user) == ContactOf(contacts, user)
      {
        if contacts[i].user == user {
          return Some(contacts[i]);
        }
        i := i + 1;
      }
      return None;
    }

    method SubmitContact(c: Config, s: Submission) returns (error: Option<Error>)
      requires Valid()
      modifies this
      ensures Valid()
      ensures error == SubmissionError(c, old(Row()), s)
      ensures error.Some? ==> Row() == old(Row()) && users == old(users)
      ensures error.None? ==>
        && |contacts| == |old(contacts)| + 1 && old(contacts) <= contacts
        && var x := contacts[|old(contacts)|];
           && x.user == s.user
           && (x.whatsapp.Some? <==> s.whatsapp.Some? && exists ch :: ch in s.whatsapp.value && !IsSpace(ch))
           && (x.whatsapp.Some? ==> x.whatsapp.value == Strip(s.whatsapp.value))
           && (x.snapchat.Some? <==> s.snapchat.Some? && exists ch :: ch in s.snapchat.value && !IsSpace(ch))
           && (x.snapchat.Some? ==> x.snapchat.value == Strip(s.snapchat.value))
      ensures Exchange(Row(), users) ==
        if error.Some? then old(Exchange(Row(), users)) else Submit(c, old(Exchange(Row(), users)), s).next
    {
      hide Strip, ContactOf, IsSpace;
      if Submit(c, Exchange(Row(), users), s).Done? {
        SubmissionStores(c, Exchange(Row(), users), s);
      }
      SubmitKeeps(c, Exchange(Row(), users), s);
      if s.user != challenger && s.user != audience {
        return Some(MatchRoomUnauthorized);
      }
      if !state.WaitingForContacts? {
        return Some(InvalidMatchRoomState);
      }
      var whatsapp := Clean(s.whatsapp);
      var snapchat := Clean(s.snapchat);
      if whatsapp.None? && snapchat.None? {
        return Some(InvalidContactPayload);
      }
      if TooLong(c, whatsapp) || TooLong(c, snapchat) {
        return Some(InvalidContactPayload);
      }
      var existing := FindContact(s.user);
      if existing.Some? {
        return Some(DuplicateContact);
      }
      contacts := contacts + [Contact(s.user, whatsapp, snapchat)];
      if |contacts| == 2 {
        state := MatchRoomState.Completed;
        status := MatchStatus.Completed;
        CompleteUsers();
      }
      return None;
    }

    method CompleteUsers()
      modifies this`users
      ensures users == WithState(old(users), {challenger, audience}, UserState.Completed)
    {
      if challenger in users {
        users := users[challenger := users[challenger].(state := UserState.Completed)];
      }
      if audience in users {
        users := users[audience := users[audience].(state := UserState.Completed)];
      }
    }

    /** get_contacts_status: a participant sees the other's contact exactly when both have given theirs. */
    method GetContactsStatus(user: UserId) returns (error: Option<Error>, submitted: bool, partner: Option<Contact>)
      requires Valid()
      ensures error == if IsParty(Row(), user) then None else Some(MatchRoomUnauthorized)
      ensures error.None? ==> submitted == ContactOf(contacts, user).Some? && partner == Revealed(Row(), user)
      ensures error.None? <==> user == challenger || user == audience
      ensures error.None? ==> (submitted <==> exists x :: x in contacts && x.user == user)
      ensures partner.Some? ==> |contacts| == 2 && partner.value in contacts
      ensures partner.Some? ==> partner.value.user == if user == challenger then audience else challenger
      ensures error.None? && |contacts| == 2 ==> partner == ContactOf(contacts, Partner(Row(), user)) && partner.Some?
    {
      BothGiven(Row());
      WhoGave(contacts, user);
      WhoGave(contacts, Partner(Row(), user));
      hide ContactOf;
      if user != challenger && user != audience {
        return Some(MatchRoomUnauthorized), false, None;
      }
      var mine := FindContact(user);
      partner := None;
      if state.ContactsExchanged? || state.Completed? {
        partner := FindContact(if user == challenger then audience else challenger);
      }
      return None, mine.Some?, partner;
    }
  }
}
