/** Subscribing to a mailbox: challenge, proof, ownership, registration. */
module SubscriptionModel {
  import opened Foundations
  import opened Wire
  import opened DirectoryModel
  import opened SubscriberSets
  import DirectorySigning
  import Names

  const CHALLENGE_TTL := 30 * 1_000_000_000

  datatype Challenge = Challenge(nonce: string, expiresAt: int)

  /** A base64 field: white space only, text that does not decode, or a value. */
  datatype Text<+T> = Blank | Undecodable | Decoded(value: T)

  datatype Request = Request(mailbox: string, key: Text<Bytes>, proof: Text<Signature>, nonce: string, expiresAt: int)

  datatype Connection = Connection(mailbox: string, challenge: Option<Challenge>)

  datatype Refusal =
    | Malformed | RateLimited | ChallengeRequired | WrongNonce | WrongExpiry | ChallengeExpired
    | UndecodableKey | WrongKeyLength | UndecodableProof | InvalidProof
    | NotPublished | InvalidEntry | NotAuthorized | ClaimedByOther | DrainFailed

  predicate WellFormed(req: Request) {
    && Names.TrimSpace(req.mailbox) != "" && !req.key.Blank? && !req.proof.Blank?
    && Names.TrimSpace(req.nonce) != "" && req.expiresAt != 0
  }

  predicate ListsKey(e: SignedDirectoryEntry, mailbox: string, key: Bytes) {
    exists d :: d in e.entry.bundle.devices && !d.revoked && d.mailbox == mailbox && d.signingPublic == key
  }

  function VerifyOwnership(b: Backend, dir: Dir, mailbox: string, key: Bytes): (refused: Option<Refusal>)
    ensures refused != Some(DrainFailed)
  {
    var account := Account(b, dir.accounts, mailbox);
    if account.None? || account.value !in dir.entries then Some(NotPublished)
    else
      var e := dir.entries[account.value];
      if !DirectorySigning.VerifySignedDirectoryEntry(e) then Some(InvalidEntry)
      else if !ListsKey(e, mailbox, key) then Some(NotAuthorized)
      else None
  }

  function VerifyChallenge(req: Request, challenge: Option<Challenge>, now: int): (refused: Option<Refusal>)
    ensures refused != Some(DrainFailed)
  {
    if challenge.None? then Some(ChallengeRequired)
    else if req.nonce != challenge.value.nonce then Some(WrongNonce)
    else if req.expiresAt != challenge.value.expiresAt then Some(WrongExpiry)
    else if challenge.value.expiresAt <= now then Some(ChallengeExpired)
    else if req.key.Undecodable? then Some(UndecodableKey)
    else if req.key.Blank? || |req.key.value| != KEY_BYTES then Some(WrongKeyLength)
    else if req.proof.Undecodable? then Some(UndecodableProof)
    else if req.proof.Blank? || !Verifies(req.key.value, SubscribeStatement(req.mailbox, req.nonce, req.expiresAt), req.proof.value)
      then Some(InvalidProof)
    else None
  }

  /** The last check may write: authorizing an unclaimed mailbox would claim it. */
  function VerifySubscribe(b: Backend, dir: Dir, req: Request, challenge: Option<Challenge>, now: int): (r: (Dir, Option<Refusal>))
    ensures r.1 != Some(DrainFailed)
  {
    var refused := VerifyChallenge(req, challenge, now);
    if refused.Some? || !req.key.Decoded? then (dir, refused)
    else
      var foreign := VerifyOwnership(b, dir, req.mailbox, req.key.value);
      if foreign.Some? then (dir, foreign)
      else
        var (dir', ok) := Authorize(b, dir, req.mailbox, req.key.value);
        (dir', if ok then None else Some(ClaimedByOther))
  }

  function Move(subs: Subscribers, s: Session, from: string, to: string): Subscribers {
    AddSub(if from == "" then subs else RemoveSub(subs, from, s), to, s)
  }

  datatype Served = Served(dir: Dir, subs: Subscribers, connection: Connection, refused: Option<Refusal>)

  /**
   One subscribe message. allowed is the rate limiter's verdict, nonce the next
   challenge's fresh nonce, drained whether fetching the backlog works.
   */
  function HandleSubscribe(b: Backend, dir: Dir, subs: Subscribers, s: Session, c: Connection, req: Request,
                           now: int, allowed: bool, nonce: string, drained: bool): Served
  {
    if !WellFormed(req) then Served(dir, subs, c, Some(Malformed))
    else if !allowed then Served(dir, subs, c, Some(RateLimited))
    else
      var (dir', refused) := VerifySubscribe(b, dir, req, c.challenge, now);
      if refused.Some? then Served(dir', subs, c.(challenge := Some(Challenge(nonce, now + CHALLENGE_TTL))), refused)
      else if drained then Served(dir', Move(subs, s, c.mailbox, req.mailbox), Connection(req.mailbox, None), None)
      else Served(dir', Move(subs, s, c.mailbox, req.mailbox), Connection("", None), Some(DrainFailed))
  }

  // ---- the relay's side of all connections ----

  datatype Issue = Issue(session: Session, issuedAt: int)

  datatype Grant = Grant(session: Session, nonce: string, mailbox: string, key: Bytes, at: int)

  /** issued and grants record the past; the code does not read them. */
  datatype Hub = Hub(dir: Dir, subs: Subscribers, sessions: map<Session, Connection>, issued: map<string, Issue>, grants: seq<Grant>)

  datatype Event =
    | Connect(session: Session, nonce: string, now: int)
    | Subscribe(session: Session, request: Request, now: int, allowed: bool, nonce: string, drained: bool)
    | Close(session: Session)
    | Directory(op: Op)

  predicate Possible(h: Hub, ev: Event) {
    match ev
    case Connect(s, nonce, _) => s !in h.sessions && nonce !in h.issued
    case Subscribe(s, _, _, _, nonce, _) => s in h.sessions && nonce !in h.issued
    case Close(s) => s in h.sessions
    case Directory(op) => op.PublishOp? && Genuine(op)
  }

  function Serve(b: Backend, h: Hub, ev: Event): Served
    requires ev.Subscribe? && ev.session in h.sessions
  {
    HandleSubscribe(b, h.dir, h.subs, ev.session, h.sessions[ev.session], ev.request, ev.now, ev.allowed, ev.nonce, ev.drained)
  }

  /** The subscription was authorized, whether or not the backlog could be fetched. */
  predicate Accepted(r: Served) {
    r.refused == None || r.refused == Some(DrainFailed)
  }

  function DoSubscribe(b: Backend, h: Hub, ev: Event): Hub
    requires ev.Subscribe? && ev.session in h.sessions
  {
    var r := Serve(b, h, ev);
    Hub(r.dir, r.subs, h.sessions[ev.session := r.connection],
        if r.connection.challenge.Some? && r.connection.challenge.value.nonce == ev.nonce
          then h.issued[ev.nonce := Issue(ev.session, ev.now)] else h.issued,
        if Accepted(r) && ev.request.key.Decoded?
          then h.grants + [Grant(ev.session, ev.request.nonce, ev.request.mailbox, ev.request.key.value, ev.now)] else h.grants)
  }

  function Step(b: Backend, h: Hub, ev: Event): Hub
    requires Possible(h, ev)
  {
    match ev
    case Connect(s, nonce, now) =>
      h.(sessions := h.sessions[s := Connection("", Some(Challenge(nonce, now + CHALLENGE_TTL)))],
         issued := h.issued[nonce := Issue(s, now)])
    case Subscribe(_, _, _, _, _, _) => DoSubscribe(b, h, ev)
    case Close(s) =>
      h.(sessions := h.sessions - {s}, subs := if h.sessions[s].mailbox == "" then h.subs else RemoveSub(h.subs, h.sessions[s].mailbox, s))
    case Directory(op) => h.(dir := Apply(b, h.dir, op))
  }

  const QUIET := Hub(EMPTY, map[], map[], map[], [])

  function RunEvents(b: Backend, events: seq<Event>): Hub {
    if events == [] then QUIET
    else
      var h, ev := RunEvents(b, events[..|events| - 1]), events[|events| - 1];
      if Possible(h, ev) then Step(b, h, ev) else h
  }
}

module SubscriptionSoundness {
  import opened Foundations
  import opened Wire
  import opened DirectoryModel
  import opened DirectoryAgreement
  import opened SubscriberSets
  import opened SubscriptionModel
  import DirectorySigning

  /** The key's holder answered this challenge in time and is a published device of the mailbox. */
  ghost predicate Entitled(b: Backend, dir: Dir, req: Request, challenge: Option<Challenge>, now: int) {
    && challenge == Some(Challenge(req.nonce, req.expiresAt)) && now < req.expiresAt
    && req.key.Decoded? && req.proof == Decoded(Signed(req.key.value, SubscribeStatement(req.mailbox, req.nonce, req.expiresAt)))
    && Claim(b, dir.claims, req.mailbox) == Some(req.key.value)
    && Lookup(b, dir, req.mailbox).Some? && ListsKey(Lookup(b, dir, req.mailbox).value, req.mailbox, req.key.value)
    && DirectorySigning.VerifySignedDirectoryEntry(Lookup(b, dir, req.mailbox).value)
  }

  /** Exactly the entitled are accepted, and checking never writes the directory: the claim compared with is the published one. */
  lemma {:induction false} AcceptedIffEntitled(b: Backend, dir: Dir, req: Request, challenge: Option<Challenge>, now: int)
    requires Agreement(dir)
    ensures VerifySubscribe(b, dir, req, challenge, now).0 == dir
    ensures VerifySubscribe(b, dir, req, challenge, now).1 == None <==> Entitled(b, dir, req, challenge, now)
  {
    hide DirectorySigning.VerifySignedDirectoryEntry, ListsKey;
    OwnedIsVisible(b, dir, req.mailbox);
    if req.mailbox in dir.accounts { OwnedKeyIsLong(dir, req.mailbox); }
  }

  lemma {:induction false} OwnedKeyIsLong(dir: Dir, m: string)
    requires Agreement(dir) && m in dir.accounts
    ensures m in dir.claims && |dir.claims[m]| == KEY_BYTES
  {
    assert Sound(dir.entries[dir.accounts[m]]);
  }

  // ---- challenges ----

  ghost predicate ChallengesOk(h: Hub) {
    && (forall s :: s in h.sessions && h.sessions[s].challenge.Some? ==>
          var c := h.sessions[s].challenge.value;
          && c.nonce in h.issued && h.issued[c.nonce].session == s && c.expiresAt == h.issued[c.nonce].issuedAt + CHALLENGE_TTL
          && forall i :: 0 <= i < |h.grants| ==> h.grants[i].nonce != c.nonce)
    && (forall i :: 0 <= i < |h.grants| ==>
          var g := h.grants[i];
          g.nonce in h.issued && h.issued[g.nonce].session == g.session && g.at < h.issued[g.nonce].issuedAt + CHALLENGE_TTL)
    && (forall i, j :: 0 <= i < j < |h.grants| ==> h.grants[i].nonce != h.grants[j].nonce)
  }

  lemma {:induction false} SubscribeKeepsChallenges(b: Backend, h: Hub, ev: Event)
    requires Agreement(h.dir) && ChallengesOk(h) && ev.Subscribe? && Possible(h, ev)
    ensures ChallengesOk(DoSubscribe(b, h, ev)) && DoSubscribe(b, h, ev).dir == h.dir
  {
    hide VerifySubscribe, Agreement, WellFormed;
    AcceptedIffEntitled(b, h.dir, ev.request, h.sessions[ev.session].challenge, ev.now);
  }

  // ---- subscriber sets ----

  /** A session sits in at most one subscriber set, the one its mailbox names. */
  ghost predicate SubscribersOk(h: Hub) {
    forall s, m :: s in Subs(h.subs, m) <==> s in h.sessions && h.sessions[s].mailbox == m && m != ""
  }

  lemma RemovedSubs(subs: Subscribers, mailbox: string, s: Session)
    ensures forall t, m :: t in Subs(RemoveSub(subs, mailbox, s), m) <==> t in Subs(subs, m) && !(t == s && m == mailbox)
  {
  }

  lemma MoveSubs(subs: Subscribers, s: Session, from: string, to: string)
    ensures forall t, m :: t in Subs(Move(subs, s, from, to), m) <==>
      (t == s && m == to) || (t in Subs(subs, m) && !(t == s && m == from && from != ""))
  {
  }

  /** An authorized subscribe keeps the subscriber sets right exactly if the backlog could be fetched. */
  lemma {:induction false} SubscribersOkIffDrained(b: Backend, h: Hub, ev: Event)
    requires Agreement(h.dir) && SubscribersOk(h) && ev.Subscribe? && Possible(h, ev) && Accepted(Serve(b, h, ev))
    ensures SubscribersOk(DoSubscribe(b, h, ev)) <==> ev.drained
  {
    hide VerifySubscribe, Agreement, Move;
    var h' := DoSubscribe(b, h, ev);
    var to := ev.request.mailbox;
    MoveSubs(h.subs, ev.session, h.sessions[ev.session].mailbox, to);
    assert to != "" by { assert WellFormed(ev.request); }
    if !ev.drained {
      assert ev.session in Subs(h'.subs, to) && h'.sessions[ev.session].mailbox == "";
    }
  }

  lemma {:induction false} RefusedKeepsSubscribers(b: Backend, h: Hub, ev: Event)
    requires SubscribersOk(h) && ev.Subscribe? && Possible(h, ev) && !Accepted(Serve(b, h, ev))
    ensures SubscribersOk(DoSubscribe(b, h, ev))
  {
    hide VerifySubscribe, WellFormed;
  }

  lemma {:induction false} CloseKeepsSubscribers(b: Backend, h: Hub, s: Session)
    requires SubscribersOk(h) && s in h.sessions
    ensures SubscribersOk(Step(b, h, Close(s)))
  {
    RemovedSubs(h.subs, h.sessions[s].mailbox, s);
  }

  // ---- after a failed drain ----

  /** The session is in the mailbox's subscriber set, but its own mailbox does not say so. */
  ghost predicate Stuck(h: Hub, s: Session, m: string) {
    s in Subs(h.subs, m) && (s in h.sessions ==> h.sessions[s].mailbox != m)
  }

  /** The session subscribes to the mailbox, and this time its backlog is fetched. */
  predicate Resubscribes(b: Backend, h: Hub, ev: Event, s: Session, m: string) {
    ev.Subscribe? && ev.session == s && ev.request.mailbox == m && ev.drained && s in h.sessions && Accepted(Serve(b, h, ev))
  }

  lemma {:induction false} FailedDrainSticks(b: Backend, h: Hub, ev: Event)
    requires ev.Subscribe? && Possible(h, ev) && Accepted(Serve(b, h, ev)) && !ev.drained
    ensures Stuck(DoSubscribe(b, h, ev), ev.session, ev.request.mailbox) && ev.request.mailbox != ""
  {
    hide VerifySubscribe, Move;
    MoveSubs(h.subs, ev.session, h.sessions[ev.session].mailbox, ev.request.mailbox);
  }

  /**
   No step takes a stuck session out of the set: not closing it, and not a
   subscribe to another mailbox. It stops being stuck exactly by a successful
   subscribe to the same mailbox.
   */
  lemma {:induction false} StuckStepIff(b: Backend, h: Hub, ev: Event, s: Session, m: string)
    requires Stuck(h, s, m) && Possible(h, ev) && m != ""
    ensures s in Subs(Step(b, h, ev).subs, m)
    ensures Stuck(Step(b, h, ev), s, m) <==> !Resubscribes(b, h, ev, s, m)
  {
    hide VerifySubscribe, Move, WellFormed, Genuine, Apply;
    match ev {
      case Subscribe(t, request, _, _, _, _) => MoveSubs(h.subs, t, h.sessions[t].mailbox, request.mailbox);
      case Close(t) => RemovedSubs(h.subs, h.sessions[t].mailbox, t);
      case Connect(_, _, _) =>
      case Directory(op) =>
    }
  }

  /** Over any stretch of a run without such a subscribe the session stays in the set. */
  lemma {:induction false} StuckRun(b: Backend, events: seq<Event>, from: nat, s: Session, m: string)
    requires from <= |events| && Stuck(RunEvents(b, events[..from]), s, m) && m != ""
    requires forall k :: from <= k < |events| ==> !Resubscribes(b, RunEvents(b, events[..k]), events[k], s, m)
    ensures Stuck(RunEvents(b, events), s, m)
    decreases |events|
  {
    hide Stuck, Resubscribes, Possible, Step;
    if from == |events| {
      assert events[..from] == events;
    } else {
      var k := |events| - 1;
      assert forall n :: 0 <= n <= k ==> events[..k][..n] == events[..n];
      StuckRun(b, events[..k], from, s, m);
      if Possible(RunEvents(b, events[..k]), events[k]) { StuckStepIff(b, RunEvents(b, events[..k]), events[k], s, m); }
    }
  }

  /** After a successful subscribe to the same mailbox, closing does remove the session. */
  lemma {:induction false} ResubscribeThenClose(b: Backend, h: Hub, ev: Event, s: Session, m: string)
    requires Resubscribes(b, h, ev, s, m) && Possible(h, ev) && m != ""
    ensures s in Step(b, h, ev).sessions && s !in Subs(Step(b, Step(b, h, ev), Close(s)).subs, m)
  {
    hide VerifySubscribe, Move;
    RemovedSubs(Step(b, h, ev).subs, m, s);
  }

  ghost predicate DrainsWork(events: seq<Event>) {
    forall i :: 0 <= i < |events| && events[i].Subscribe? ==> events[i].drained
  }

  // ---- whole runs ----

  lemma {:induction false} StepKeepsChallenges(b: Backend, h: Hub, ev: Event)
    requires Agreement(h.dir) && ChallengesOk(h) && Possible(h, ev)
    ensures Agreement(Step(b, h, ev).dir) && ChallengesOk(Step(b, h, ev))
  {
    hide Agreement, DoSubscribe, Genuine;
    match ev {
      case Subscribe(_, _, _, _, _, _) => SubscribeKeepsChallenges(b, h, ev);
      case Directory(op) => ApplyKeepsAgreement(b, h.dir, op);
      case Connect(_, _, _) =>
      case Close(_) =>
    }
  }

  lemma {:induction false} StepKeepsSubscribers(b: Backend, h: Hub, ev: Event)
    requires Agreement(h.dir) && SubscribersOk(h) && Possible(h, ev) && (ev.Subscribe? ==> ev.drained)
    ensures SubscribersOk(Step(b, h, ev))
  {
    hide Agreement, DoSubscribe, Genuine;
    match ev {
      case Subscribe(_, _, _, _, _, _) =>
        if Accepted(Serve(b, h, ev)) { SubscribersOkIffDrained(b, h, ev); } else { RefusedKeepsSubscribers(b, h, ev); }
      case Close(s) => CloseKeepsSubscribers(b, h, s);
      case Connect(s, _, _) => assert forall m :: s !in Subs(h.subs, m);
      case Directory(op) =>
    }
  }

  /**
   Each challenge authorizes at most one subscription, on the connection it was
   issued to and before it expires; no replay across connections, ever.
   */
  lemma {:induction false} EachChallengeOnce(b: Backend, events: seq<Event>)
    ensures Agreement(RunEvents(b, events).dir) && ChallengesOk(RunEvents(b, events))
  {
    if events != [] {
      EachChallengeOnce(b, events[..|events| - 1]);
      var h, ev := RunEvents(b, events[..|events| - 1]), events[|events| - 1];
      if Possible(h, ev) { StepKeepsChallenges(b, h, ev); }
    }
  }

  /** As long as backlogs can be fetched, subscriber sets and session mailboxes agree. */
  lemma {:induction false} OneSubscriberSet(b: Backend, events: seq<Event>)
    requires DrainsWork(events)
    ensures SubscribersOk(RunEvents(b, events))
  {
    if events != [] {
      OneSubscriberSet(b, events[..|events| - 1]);
      EachChallengeOnce(b, events[..|events| - 1]);
      var h, ev := RunEvents(b, events[..|events| - 1]), events[|events| - 1];
      if Possible(h, ev) { StepKeepsSubscribers(b, h, ev); }
    }
  }

  /**
   In every run, a subscribe is granted exactly to the entitled: the message is
   well-formed and within the rate limit, the key signed this connection's
   unexpired challenge for this mailbox, an unrevoked device of the mailbox's
   published and verified entry has the key, and the stored claim is that key.
   No subscribe creates a claim or changes the directory.
   */
  lemma {:induction false} GrantedIffEntitled(b: Backend, events: seq<Event>, ev: Event)
    requires ev.Subscribe? && Possible(RunEvents(b, events), ev)
    ensures var h := RunEvents(b, events);
      && DoSubscribe(b, h, ev).dir == h.dir
      && (Accepted(Serve(b, h, ev)) <==>
            WellFormed(ev.request) && ev.allowed && Entitled(b, h.dir, ev.request, h.sessions[ev.session].challenge, ev.now))
  {
    hide VerifySubscribe, Agreement, WellFormed, Entitled;
    EachChallengeOnce(b, events);
    var h := RunEvents(b, events);
    AcceptedIffEntitled(b, h.dir, ev.request, h.sessions[ev.session].challenge, ev.now);
  }
}

/** Who is granted a subscription, in terms of messages and published entries; and that a refusal leaves a way to try again. */
module SubscriptionAnswers {
  import opened Foundations
  import opened Wire
  import opened DirectoryModel
  import opened DirectoryAgreement
  import opened DirectoryAnswers
  import opened SubscriberSets
  import opened SubscriptionModel
  import opened SubscriptionSoundness
  import DirectorySigning
  import Names

  predicate NotBlank(s: string) {
    exists k :: 0 <= k < |s| && !Names.IsSpace(s[k])
  }

  /** The message is complete. */
  ghost predicate Complete(req: Request) {
    NotBlank(req.mailbox) && NotBlank(req.nonce) && req.expiresAt != 0 && !req.key.Blank? && !req.proof.Blank?
  }

  lemma {:induction false} CompleteIff(req: Request)
    ensures Complete(req) <==> WellFormed(req)
  {
    Names.TrimmedIsBlankIff(req.mailbox);
    Names.TrimmedIsBlankIff(req.nonce);
  }

  /** Some account's published entry has the key for the mailbox: that of its last unrevoked device there. */
  ghost predicate Published(dir: Dir, m: string, key: Bytes) {
    exists a :: a in dir.entries && LastKey(dir.entries[a].entry.bundle.devices, m, key)
  }

  ghost predicate AllVerified(dir: Dir) {
    forall a :: a in dir.entries ==> DirectorySigning.VerifySignedDirectoryEntry(dir.entries[a])
  }

  lemma {:induction false} EntriesVerify(b: Backend, events: seq<Event>)
    ensures AllVerified(RunEvents(b, events).dir)
  {
    hide DirectorySigning.VerifySignedDirectoryEntry, VerifyOwnership, VerifyChallenge, Blocked, Storable;
    if events != [] {
      var k := |events| - 1;
      EntriesVerify(b, events[..k]);
      var h, ev := RunEvents(b, events[..k]), events[k];
      if Possible(h, ev) && ev.Subscribe? {
        EachChallengeOnce(b, events[..k]);
        SubscribeKeepsChallenges(b, h, ev);
      }
    }
  }

  lemma {:induction false} ClaimedIffPublished(b: Backend, dir: Dir, m: string, key: Bytes)
    requires Agreement(dir) && AllVerified(dir)
    ensures Published(dir, m, key) <==>
      && Claim(b, dir.claims, m) == Some(key)
      && Lookup(b, dir, m).Some? && ListsKey(Lookup(b, dir, m).value, m, key)
      && DirectorySigning.VerifySignedDirectoryEntry(Lookup(b, dir, m).value)
  {
    hide DirectorySigning.VerifySignedDirectoryEntry, ActiveDevices, LastKey;
    OwnedIsVisible(b, dir, m);
    forall a | a in dir.entries
      ensures LastKey(dir.entries[a].entry.bundle.devices, m, key) <==>
        m in dir.accounts && dir.accounts[m] == a && dir.claims[m] == key
    {
      ActiveIsLast(dir.entries[a].entry.bundle.devices, m, key);
      OwnershipIffListed(b, dir, m, a);
      assert Sound(dir.entries[a]);
    }
    if m in dir.accounts && dir.claims[m] == key { OwnerListsKey(b, dir, m); }
  }

  lemma {:induction false} OwnerListsKey(b: Backend, dir: Dir, m: string)
    requires Agreement(dir) && m in dir.accounts
    ensures ListsKey(dir.entries[dir.accounts[m]], m, dir.claims[m])
  {
    OwnedIsVisible(b, dir, m);
    OwnershipIffListed(b, dir, m, dir.accounts[m]);
  }

  /**
   In every run a subscribe is granted exactly if the message is complete and
   within the rate limit, and answers the challenge the connection holds, in
   time, with a signature by the key published for the mailbox.
   */
  lemma {:induction false} GrantedIffPublished(b: Backend, events: seq<Event>, ev: Event)
    requires ev.Subscribe? && Possible(RunEvents(b, events), ev)
    ensures var h, req := RunEvents(b, events), ev.request;
      Accepted(Serve(b, h, ev)) <==>
        && ev.allowed && Complete(req)
        && h.sessions[ev.session].challenge == Some(Challenge(req.nonce, req.expiresAt)) && ev.now < req.expiresAt
        && req.key.Decoded? && Published(h.dir, req.mailbox, req.key.value)
        && req.proof == Decoded(Signed(req.key.value, SubscribeStatement(req.mailbox, req.nonce, req.expiresAt)))
  {
    hide VerifySubscribe, Agreement, Complete, WellFormed, Published, AllVerified, Serve, DirectorySigning.VerifySignedDirectoryEntry;
    var h := RunEvents(b, events);
    EachChallengeOnce(b, events);
    EntriesVerify(b, events);
    GrantedIffEntitled(b, events, ev);
    CompleteIff(ev.request);
    if ev.request.key.Decoded? { ClaimedIffPublished(b, h.dir, ev.request.mailbox, ev.request.key.value); }
  }

  lemma {:induction false} SubscribeRefusals(b: Backend, dir: Dir, req: Request, held: Option<Challenge>, now: int)
    requires Agreement(dir) && AllVerified(dir) && !req.key.Blank? && !req.proof.Blank?
    ensures var refused := VerifySubscribe(b, dir, req, held, now).1;
      var timely := held == Some(Challenge(req.nonce, req.expiresAt)) && now < req.expiresAt;
      && (refused == Some(ChallengeRequired) <==> held.None?)
      && (refused == Some(WrongNonce) <==> held.Some? && req.nonce != held.value.nonce)
      && (refused == Some(WrongExpiry) <==> held.Some? && req.nonce == held.value.nonce && req.expiresAt != held.value.expiresAt)
      && (refused == Some(ChallengeExpired) <==> held == Some(Challenge(req.nonce, req.expiresAt)) && req.expiresAt <= now)
      && (timely && !ProvesKey(req) <==> IsKeyRefusal(refused))
      && (refused == Some(NotPublished) <==> timely && ProvesKey(req) && !SomeoneLists(dir, req.mailbox))
      && (refused == Some(NotAuthorized) <==>
            timely && ProvesKey(req) && SomeoneLists(dir, req.mailbox) && !ListedFor(dir, req.mailbox, req.key.value))
      && refused != Some(Malformed) && refused != Some(RateLimited) && refused != Some(InvalidEntry)
  {
    hide VerifyChallenge, VerifyOwnership, Agreement, AllVerified, SomeoneLists, ListedFor, Authorize;
    ChallengeRefusals(req, held, now);
    if req.key.Decoded? { OwnershipRefusals(b, dir, req.mailbox, req.key.value); }
  }

  /**
   Why a complete subscribe within the rate limit is refused: the challenge is
   looked at first, then the key and the proof, and only then the directory, in
   which an unpublished mailbox and a foreign key are told apart.
   */
  lemma {:induction false} RefusedBecause(b: Backend, events: seq<Event>, ev: Event)
    requires ev.Subscribe? && Possible(RunEvents(b, events), ev) && ev.allowed && Complete(ev.request)
    ensures var dir, req, now := RunEvents(b, events).dir, ev.request, ev.now;
      var held, refused := RunEvents(b, events).sessions[ev.session].challenge, Serve(b, RunEvents(b, events), ev).refused;
      var timely := held == Some(Challenge(req.nonce, req.expiresAt)) && now < req.expiresAt;
      && (refused == Some(ChallengeRequired) <==> held.None?)
      && (refused == Some(WrongNonce) <==> held.Some? && req.nonce != held.value.nonce)
      && (refused == Some(WrongExpiry) <==> held.Some? && req.nonce == held.value.nonce && req.expiresAt != held.value.expiresAt)
      && (refused == Some(ChallengeExpired) <==> held == Some(Challenge(req.nonce, req.expiresAt)) && req.expiresAt <= now)
      && (timely && !ProvesKey(req) <==> IsKeyRefusal(refused))
      && (refused == Some(NotPublished) <==> timely && ProvesKey(req) && !SomeoneLists(dir, req.mailbox))
      && (refused == Some(NotAuthorized) <==>
            timely && ProvesKey(req) && SomeoneLists(dir, req.mailbox) && !ListedFor(dir, req.mailbox, req.key.value))
      && refused != Some(Malformed) && refused != Some(RateLimited) && refused != Some(InvalidEntry)
  {
    hide VerifySubscribe, Move, WellFormed, Agreement, AllVerified, SomeoneLists, ListedFor, ProvesKey;
    var h := RunEvents(b, events);
    EachChallengeOnce(b, events);
    EntriesVerify(b, events);
    CompleteIff(ev.request);
    SubscribeRefusals(b, h.dir, ev.request, h.sessions[ev.session].challenge, ev.now);
    assert ProvesKey(ev.request) ==> ev.request.key.Decoded? by { ProvenIsDecoded(ev.request); }
  }

  lemma ProvenIsDecoded(req: Request)
    ensures ProvesKey(req) ==> req.key.Decoded?
  {
  }

  /** Some account lists an unrevoked device with the mailbox. */
  ghost predicate SomeoneLists(dir: Dir, m: string) {
    exists a :: a in dir.entries && HasActiveDevice(dir.entries[a], m)
  }

  /** Some account lists the key unrevoked for the mailbox. */
  ghost predicate ListedFor(dir: Dir, m: string, key: Bytes) {
    exists a, d :: a in dir.entries && d in dir.entries[a].entry.bundle.devices && !d.revoked && d.mailbox == m && d.signingPublic == key
  }

  lemma {:induction false} OwnershipRefusals(b: Backend, dir: Dir, m: string, key: Bytes)
    requires Agreement(dir) && AllVerified(dir)
    ensures var refused := VerifyOwnership(b, dir, m, key);
      && (refused == Some(NotPublished) <==> !SomeoneLists(dir, m))
      && (refused == Some(NotAuthorized) <==> SomeoneLists(dir, m) && !ListedFor(dir, m, key))
      && (refused == None || refused == Some(NotPublished) || refused == Some(NotAuthorized))
  {
    hide DirectorySigning.VerifySignedDirectoryEntry;
    OwnedIsVisible(b, dir, m);
    forall a | a in dir.entries && HasActiveDevice(dir.entries[a], m) ensures m in dir.accounts && dir.accounts[m] == a {
      OwnershipIffListed(b, dir, m, a);
    }
    if m in dir.accounts { OwnershipIffListed(b, dir, m, dir.accounts[m]); }
    forall a, d | a in dir.entries && d in dir.entries[a].entry.bundle.devices && !d.revoked && d.mailbox == m
      ensures HasActiveDevice(dir.entries[a], m) { }
  }

  /** The message's key has the right length and signed the message's own fields. */
  ghost predicate ProvesKey(req: Request) {
    && req.key.Decoded? && |req.key.value| == 32
    && req.proof == Decoded(Signed(req.key.value, SubscribeStatement(req.mailbox, req.nonce, req.expiresAt)))
  }

  lemma {:induction false} ChallengeRefusals(req: Request, held: Option<Challenge>, now: int)
    requires !req.key.Blank? && !req.proof.Blank?
    ensures var refused := VerifyChallenge(req, held, now);
      var timely := held == Some(Challenge(req.nonce, req.expiresAt)) && now < req.expiresAt;
      && (refused == Some(ChallengeRequired) <==> held.None?)
      && (refused == Some(WrongNonce) <==> held.Some? && req.nonce != held.value.nonce)
      && (refused == Some(WrongExpiry) <==> held.Some? && req.nonce == held.value.nonce && req.expiresAt != held.value.expiresAt)
      && (refused == Some(ChallengeExpired) <==> held == Some(Challenge(req.nonce, req.expiresAt)) && req.expiresAt <= now)
      && (timely && !ProvesKey(req) <==> IsKeyRefusal(refused))
      && (refused == None <==> timely && ProvesKey(req))
      && (refused.Some? ==> refused.value in {ChallengeRequired, WrongNonce, WrongExpiry, ChallengeExpired} || IsKeyRefusal(refused))
  {
  }

  predicate IsKeyRefusal(refused: Option<Refusal>) {
    refused.Some? && (refused.value.UndecodableKey? || refused.value.WrongKeyLength? || refused.value.UndecodableProof? || refused.value.InvalidProof?)
  }

  // ---- challenges ----

  const CHALLENGE_SECONDS := 30 * 1_000_000_000

  /** The event sends the session a challenge: it connects, or the relay refuses a complete subscribe within the rate limit. */
  ghost predicate Challenges(b: Backend, h: Hub, ev: Event, s: Session)
    requires Possible(h, ev)
  {
    || (ev.Connect? && ev.session == s)
    || (ev.Subscribe? && ev.session == s && ev.allowed && Complete(ev.request) && !Accepted(Serve(b, h, ev)))
  }

  predicate Concerns(ev: Event, s: Session) {
    match ev
    case Connect(t, _, _) => t == s
    case Subscribe(t, _, _, _, _, _) => t == s
    case Close(t) => t == s
    case Directory(_) => false
  }

  /** Then the session holds exactly that challenge, for 30 seconds; whatever else happens leaves it alone. */
  lemma {:induction false} ChallengeIssued(b: Backend, h: Hub, ev: Event, s: Session)
    requires Possible(h, ev)
    ensures Challenges(b, h, ev, s) ==>
      && s in Step(b, h, ev).sessions
      && Step(b, h, ev).sessions[s].challenge == Some(Challenge(ev.nonce, ev.now + CHALLENGE_SECONDS))
    ensures !Concerns(ev, s) ==>
      && (s in Step(b, h, ev).sessions <==> s in h.sessions)
      && (s in h.sessions ==> Step(b, h, ev).sessions[s] == h.sessions[s])
    ensures ev.Subscribe? && ev.session == s && !Accepted(Serve(b, h, ev)) ==>
      s in Step(b, h, ev).sessions && Step(b, h, ev).sessions[s].mailbox == h.sessions[s].mailbox
    ensures ev.Subscribe? && ev.session == s && !(ev.allowed && Complete(ev.request)) ==>
      s in Step(b, h, ev).sessions && Step(b, h, ev).sessions[s] == h.sessions[s]
    ensures ev.Subscribe? && ev.session == s && Accepted(Serve(b, h, ev)) ==>
      s in Step(b, h, ev).sessions && Step(b, h, ev).sessions[s].challenge == None
  {
    hide VerifySubscribe, Complete, WellFormed, Move, Apply, Genuine;
    if ev.Subscribe? { CompleteIff(ev.request); }
  }

  /** The challenge stays until the session's next message. */
  lemma {:induction false} ChallengeStays(b: Backend, events: seq<Event>, n: nat, s: Session)
    requires n < |events| && Possible(RunEvents(b, events[..n]), events[n]) && Challenges(b, RunEvents(b, events[..n]), events[n], s)
    requires forall k :: n < k < |events| ==> !Concerns(events[k], s)
    ensures s in RunEvents(b, events).sessions
    ensures RunEvents(b, events).sessions[s].challenge == Some(Challenge(events[n].nonce, events[n].now + CHALLENGE_SECONDS))
    decreases |events|
  {
    hide Step, Challenges, Possible;
    var k := |events| - 1;
    var front := events[..k];
    var h := RunEvents(b, front);
    if n < k {
      assert front[..n] == events[..n] && front[n] == events[n];
      ChallengeStays(b, front, n, s);
    }
    if Possible(h, events[k]) { ChallengeIssued(b, h, events[k], s); }
  }

  /**
   Whatever was refused before on a connection: whoever answers its latest
   challenge within 30 seconds, for a mailbox with its published key, is
   granted the subscription.
   */
  lemma {:induction false} TimelyAnswerIsGranted(b: Backend, events: seq<Event>, n: nat, ev: Event)
    requires ev.Subscribe? && Possible(RunEvents(b, events), ev)
    requires n < |events| && Possible(RunEvents(b, events[..n]), events[n])
    requires Challenges(b, RunEvents(b, events[..n]), events[n], ev.session)
    requires forall k :: n < k < |events| ==> !Concerns(events[k], ev.session)
    requires var req := ev.request;
      && NotBlank(req.mailbox) && NotBlank(req.nonce) && req.expiresAt != 0 && req.key.Decoded? && ev.allowed
      && req.nonce == events[n].nonce && req.expiresAt == events[n].now + CHALLENGE_SECONDS && ev.now < req.expiresAt
      && req.proof == Decoded(Signed(req.key.value, SubscribeStatement(req.mailbox, req.nonce, req.expiresAt)))
      && Published(RunEvents(b, events).dir, req.mailbox, req.key.value)
    ensures Accepted(Serve(b, RunEvents(b, events), ev))
  {
    hide Serve, Published, Challenges;
    ChallengeStays(b, events, n, ev.session);
    GrantedIffPublished(b, events, ev);
  }

  /**
   A client subscribes too early and is refused, publishes its entry, and
   subscribes again on the same connection: then it is granted.
   */
  lemma {:induction false} PublishAndTryAgain(b: Backend, s: Session, entry: SignedDirectoryEntry, first: Request, second: Request,
                                              n1: string, n2: string, n3: string, now: int)
    requires DirectorySigning.VerifySignedDirectoryEntry(entry) && Storable(b, entry)
    requires NotBlank(n2) && n1 != n2 && n2 != n3 && n3 != n1 && now + CHALLENGE_SECONDS != 0
    requires Complete(first) && second.key.Decoded? && NotBlank(second.mailbox)
    requires LastKey(entry.entry.bundle.devices, second.mailbox, second.key.value)
    requires second.nonce == n2 && second.expiresAt == now + CHALLENGE_SECONDS
    requires second.proof == Decoded(Signed(second.key.value, SubscribeStatement(second.mailbox, second.nonce, second.expiresAt)))
    ensures var events := [Connect(s, n1, now), Subscribe(s, first, now, true, n2, true), Directory(PublishOp(entry))];
      var again := Subscribe(s, second, now, true, n3, true);
      && Possible(RunEvents(b, events), again)
      && Accepted(Serve(b, RunEvents(b, events), again))
  {
    hide Complete, WellFormed, VerifySubscribe, DirectorySigning.VerifySignedDirectoryEntry, LastKey, NotBlank, Publish, Storable, Apply;
    var none: seq<Event> := [];
    var e1, e2, e3 := Connect(s, n1, now), Subscribe(s, first, now, true, n2, true), Directory(PublishOp(entry));
    var events, again := [e1, e2, e3], Subscribe(s, second, now, true, n3, true);
    assert [e1][..0] == none && [e1, e2][..1] == [e1] && events[..2] == [e1, e2] && events[..1] == [e1];
    var h1, h2 := RunEvents(b, [e1]), RunEvents(b, [e1, e2]);
    assert RunEvents(b, none) == QUIET && Possible(QUIET, e1);
    assert h1 == Step(b, QUIET, e1) && h1.issued == map[n1 := Issue(s, now)];
    assert Possible(h1, e2) && h2 == Step(b, h1, e2);
    EachChallengeOnce(b, [e1]);
    SubscribeKeepsChallenges(b, h1, e2);
    assert h2.dir == EMPTY;
    EmptyRefuses(b, [e1], e2);
    ChallengeIssued(b, h1, e2, s);
    assert Possible(h2, e3);
    var h := RunEvents(b, events);
    assert h == Step(b, h2, e3);
    FirstPublication(b, entry, second.mailbox, second.key.value);
    assert h.issued.Keys == {n1, n2};
    TimelyAnswerIsGranted(b, events, 1, again);
  }

  lemma {:induction false} EmptyRefuses(b: Backend, events: seq<Event>, ev: Event)
    requires ev.Subscribe? && Possible(RunEvents(b, events), ev) && RunEvents(b, events).dir == EMPTY
    ensures !Accepted(Serve(b, RunEvents(b, events), ev))
  {
    hide Serve;
    GrantedIffPublished(b, events, ev);
  }

  lemma {:induction false} FirstPublication(b: Backend, entry: SignedDirectoryEntry, m: string, key: Bytes)
    requires DirectorySigning.VerifySignedDirectoryEntry(entry) && Storable(b, entry) && LastKey(entry.entry.bundle.devices, m, key)
    ensures Published(Publish(b, EMPTY, entry).0, m, key) && Publish(b, EMPTY, entry).0 == Apply(b, EMPTY, PublishOp(entry))
  {
    hide DirectorySigning.VerifySignedDirectoryEntry, LastKey, Storable;
    VerifiedIsSound(entry);
    KeysFitIff(b, entry);
    PublishedIff(b, EMPTY, entry);
    assert entry.entry.mailbox in Publish(b, EMPTY, entry).0.entries;
  }
}

/** The session object, whose mailbox and challenge change message by message. */
module SubscriptionSessions {
  import opened Foundations
  import opened Wire
  import opened QueueModel
  import opened DirectoryModel
  import opened SubscriberSets
  import opened SubscriptionModel
  import DirectorySigning
  import DirectoryStores
  import DeliveryServer

  class Relay {
    const store: DirectoryStores.DirectoryStore
    const server: DeliveryServer.Server

    constructor (store: DirectoryStores.DirectoryStore, server: DeliveryServer.Server)
      ensures this.store == store && this.server == server
    {
      this.store, this.server := store, server;
    }

    method VerifyMailboxOwnership(mailbox: string, key: Bytes) returns (refused: Option<Refusal>)
      ensures refused == VerifyOwnership(store.backend, store.View(), mailbox, key)
    {
      hide DirectorySigning.VerifySignedDirectoryEntry;
      var account := Account(store.backend, store.accounts, mailbox);
      if account.None? || account.value !in store.entries {
        return Some(NotPublished);
      }
      var e := store.entries[account.value];
      if !DirectorySigning.VerifySignedDirectoryEntry(e) {
        return Some(InvalidEntry);
      }
      var devices := e.entry.bundle.devices;
      var i := 0;
      while i < |devices|
        invariant 0 <= i <= |devices|
        invariant forall d :: d in devices[..i] ==> d.revoked || d.mailbox != mailbox || d.signingPublic != key
      {
        var d := devices[i];
        if !d.revoked && d.mailbox == mailbox && d.signingPublic == key {
          assert d in devices;
          return None;
        }
        assert devices[..i + 1] == devices[..i] + [d];
        i := i + 1;
      }
      assert devices[..i] == devices;
      return Some(NotAuthorized);
    }

    method VerifySubscribeRequest(req: Request, challenge: Option<Challenge>, now: int) returns (refused: Option<Refusal>)
      modifies store`claims
      ensures (store.View(), refused) == VerifySubscribe(store.backend, old(store.View()), req, challenge, now)
    {
      hide VerifyOwnership;
      if challenge.None? {
        return Some(ChallengeRequired);
      }
      if req.nonce != challenge.value.nonce {
        return Some(WrongNonce);
      }
      if req.expiresAt != challenge.value.expiresAt {
        return Some(WrongExpiry);
      }
      if challenge.value.expiresAt <= now {
        return Some(ChallengeExpired);
      }
      if req.key.Undecodable? {
        return Some(UndecodableKey);
      }
      if req.key.Blank? || |req.key.value| != KEY_BYTES {
        return Some(WrongKeyLength);
      }
      if req.proof.Undecodable? {
        return Some(UndecodableProof);
      }
      if req.proof.Blank? || !Verifies(req.key.value, SubscribeStatement(req.mailbox, req.nonce, req.expiresAt), req.proof.value) {
        return Some(InvalidProof);
      }
      refused := VerifyMailboxOwnership(req.mailbox, req.key.value);
      if refused.Some? {
        return;
      }
      var ok := store.AuthorizeMailbox(req.mailbox, req.key.value);
      if !ok {
        return Some(ClaimedByOther);
      }
    }
  }

  class WsSession {
    const id: Session
    const relay: Relay
    var mailbox: string
    var challenge: Option<Challenge>

    ghost function View(): Connection
      reads this
    {
      Connection(mailbox, challenge)
    }

    constructor (id: Session, relay: Relay, nonce: string, now: int)
      ensures this.id == id && this.relay == relay
      ensures View() == Connection("", Some(Challenge(nonce, now + CHALLENGE_TTL)))
    {
      this.id, this.relay := id, relay;
      mailbox, challenge := "", Some(Challenge(nonce, now + CHALLENGE_TTL));
    }

    /** drained: whether fetching the backlog works. */
    method HandleSubscribe(req: Request, now: int, allowed: bool, nonce: string, drained: bool)
      returns (refused: Option<Refusal>, backlog: seq<Envelope>)
      modifies this`mailbox, this`challenge, relay.server`mailboxes, relay.server.queue`bucket, relay.store`claims
      ensures Served(relay.store.View(), relay.server.mailboxes, View(), refused) ==
        SubscriptionModel.HandleSubscribe(relay.store.backend, old(relay.store.View()), old(relay.server.mailboxes), id, old(View()),
                                          req, now, allowed, nonce, drained)
      ensures (relay.server.queue.bucket, backlog) ==
        if refused == None then Drain(old(relay.server.queue.bucket), req.mailbox, now) else (old(relay.server.queue.bucket), [])
    {
      hide VerifySubscribe, WellFormed, AddSub, RemoveSub, Drain;
      backlog := [];
      if !WellFormed(req) {
        return Some(Malformed), [];
      }
      if !allowed {
        return Some(RateLimited), [];
      }
      refused := relay.VerifySubscribeRequest(req, challenge, now);
      if refused.Some? {
        challenge := Some(Challenge(nonce, now + CHALLENGE_TTL));
        return;
      }
      if mailbox != "" {
        relay.server.Unregister(id, mailbox);
      }
      challenge := None;
      mailbox := req.mailbox;
      relay.server.Register(id, mailbox);
      var fetched := relay.server.FetchBacklog(mailbox, now, drained);
      if fetched.None? {
        mailbox := "";
        return Some(DrainFailed), [];
      }
      backlog := fetched.value;
    }

    method Close()
      modifies relay.server`mailboxes
      ensures relay.server.mailboxes ==
        if mailbox == "" then old(relay.server.mailboxes) else RemoveSub(old(relay.server.mailboxes), mailbox, id)
    {
      if mailbox != "" {
        relay.server.Unregister(id, mailbox);
      }
    }
  }
}
