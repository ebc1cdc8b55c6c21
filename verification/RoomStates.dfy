/** The default room as one client sees it: joining, announcements, first messages. */
module RoomStateModel {
  import opened Foundations
  import opened RoomMembers

  const ROOM_ID := "default"
  const ROOM_NAME := "general"
  const ROOM_CAP := 16

  datatype RoomState = RoomState(id: string, name: string, joined: bool, joinedAt: int, members: seq<Member>, updatedAt: int)

  const FRESH := RoomState(ROOM_ID, ROOM_NAME, false, 0, [], 0)

  datatype Announcement = Announcement(roomId: string, updatedAt: int, members: seq<Member>)

  datatype RoomMessage = RoomMessage(roomId: string, messageId: string, sender: string, body: string)

  datatype Reply =
    | Ignored | Updated(state: RoomState) | Delivered | RoomFull | AlreadyJoined | NotAnnounced
    | MissingId | MissingSender | SenderMismatch

  function Normalized(s: RoomState): RoomState {
    s.(members := Merge([], s.members))
  }

  /** DefaultRoomState: what is stored, or a fresh room. */
  function Load(stored: Option<RoomState>): RoomState {
    if stored.None? then FRESH
    else Normalized(stored.value).(id := if stored.value.id == "" then ROOM_ID else stored.value.id,
                                   name := if stored.value.name == "" then ROOM_NAME else stored.value.name)
  }

  function Save(s: RoomState): Option<RoomState> {
    Some(Normalized(s))
  }

  function JoinTimeOf(members: seq<Member>, account: string): Option<int> {
    if members == [] then None
    else if members[0].account == account then Some(members[0].joinedAt)
    else JoinTimeOf(members[1..], account)
  }

  function Announced(s: RoomState, self: string, a: Announcement, members: seq<Member>): RoomState {
    var s1 := s.(members := members, updatedAt := if s.updatedAt < a.updatedAt then a.updatedAt else s.updatedAt);
    if s1.joined && s1.joinedAt == 0 && JoinTimeOf(members, self).Some? then s1.(joinedAt := JoinTimeOf(members, self).value) else s1
  }

  function OnAnnouncement(stored: Option<RoomState>, self: string, a: Announcement): (Option<RoomState>, Reply) {
    if a.roomId != ROOM_ID then (stored, Ignored)
    else
      var s := Load(stored);
      var members := Merge(s.members, a.members);
      if |members| > ROOM_CAP then (stored, Ignored)
      else (Save(Announced(s, self, a, members)), Updated(Announced(s, self, a, members)))
  }

  function OnMessage(stored: Option<RoomState>, contact: string, m: RoomMessage, now: int): (Option<RoomState>, Reply) {
    if m.roomId != ROOM_ID then (stored, Ignored)
    else if m.messageId == "" then (stored, MissingId)
    else if m.sender == "" then (stored, MissingSender)
    else if m.sender != contact then (stored, SenderMismatch)
    else
      var s := Load(stored);
      if JoinTimeOf(s.members, contact).Some? then (stored, Delivered)
      else
        var members := Merge(s.members, [Member(contact, now)]);
        if |members| > ROOM_CAP then (stored, Ignored)
        else (Save(s.(members := members, updatedAt := now)), Delivered)
  }

  function OnJoin(stored: Option<RoomState>, self: string, now: int): (Option<RoomState>, Reply) {
    var s := Load(stored);
    if s.joined then (stored, AlreadyJoined)
    else if |s.members| >= ROOM_CAP then (stored, RoomFull)
    else
      var s' := s.(joined := true, joinedAt := now, updatedAt := now, members := Merge(s.members, [Member(self, now)]));
      (Save(s'), Updated(s'))
  }

  /** Joining ends with an announcement; where that cannot be encrypted, the reply is an error but the state stays saved. */
  function Announcing(joined: (Option<RoomState>, Reply), encrypts: bool): (Option<RoomState>, Reply) {
    if joined.1.RoomFull? || encrypts then joined else (joined.0, NotAnnounced)
  }

  datatype Event =
    | Announce(announcement: Announcement)
    | Message(contact: string, message: RoomMessage, now: int)
    | JoinRoom(now: int)

  function Step(stored: Option<RoomState>, self: string, ev: Event): Option<RoomState> {
    match ev
    case Announce(a) => OnAnnouncement(stored, self, a).0
    case Message(contact, m, now) => OnMessage(stored, contact, m, now).0
    case JoinRoom(now) => OnJoin(stored, self, now).0
  }

  function Run(stored: Option<RoomState>, self: string, events: seq<Event>): Option<RoomState> {
    if events == [] then stored else Step(Run(stored, self, events[..|events| - 1]), self, events[|events| - 1])
  }
}

module RoomStateInvariants {
  import opened Foundations
  import opened Sorting
  import opened RoomMembers
  import opened RoomStateModel

  ghost predicate RoomOk(stored: Option<RoomState>) {
    stored.Some? ==> Canonical(stored.value.members) && |stored.value.members| <= ROOM_CAP
  }

  /** Members only accumulate, and a known join time only moves earlier. */
  ghost predicate Grows(before: seq<Member>, after: seq<Member>) {
    forall a :: Known(before, a).Some? ==>
      && Known(after, a).Some?
      && (Known(before, a).value != 0 ==> Known(after, a).value != 0 && Known(after, a).value <= Known(before, a).value)
  }

  lemma {:induction false} LoadIsStored(stored: Option<RoomState>)
    requires RoomOk(stored)
    ensures Load(stored).members == if stored.None? then [] else stored.value.members
    ensures Canonical(Load(stored).members) && |Load(stored).members| <= ROOM_CAP
  {
    if stored.Some? { NormalizeFixes(stored.value.members); }
  }

  /** Whatever is in the file, what is loaded is canonical. */
  lemma {:induction false} LoadIsCanonical(stored: Option<RoomState>)
    ensures Canonical(Load(stored).members)
  {
    if stored.Some? { MergeIsJoin([], stored.value.members); }
  }

  /** Saving then loading returns the same members, for every list a handler builds. */
  lemma {:induction false} SaveThenLoad(s: RoomState, existing: seq<Member>, incoming: seq<Member>)
    requires Canonical(existing) && s.members == Merge(existing, incoming)
    ensures Save(s) == Some(s) && Load(Save(s)).members == s.members
  {
    MergeIsJoin(existing, incoming);
    NormalizeFixes(s.members);
  }

  lemma {:induction false} JoinTimeIsKnown(ms: seq<Member>, a: string)
    requires Distinct(ms)
    ensures JoinTimeOf(ms, a) == Known(ms, a)
  {
    if ms != [] {
      var rest := ms[1..];
      JoinTimeIsKnown(rest, a);
      if Known(rest, a).Some? {
        KnownIffMember(rest, a, Known(rest, a).value);
        KnownIffMember(ms, a, Known(rest, a).value);
        assert Member(a, Known(rest, a).value) in ms;
      } else if Known(ms, a).Some? {
        KnownIffMember(ms, a, Known(ms, a).value);
        KnownIffMember(rest, a, Known(ms, a).value);
        assert ms == [ms[0]] + rest;
      } else {
        KnownIffMember(ms, a, ms[0].joinedAt);
        assert ms[0] in ms;
      }
    }
  }

  lemma {:induction false} MergeGrows(existing: seq<Member>, incoming: seq<Member>)
    requires Distinct(existing)
    ensures Grows(existing, Merge(existing, incoming))
  {
    MergeIsJoin(existing, incoming);
  }

  lemma {:induction false} MergeOne(existing: seq<Member>, m: Member)
    requires Canonical(existing)
    ensures |Merge(existing, [m])| == |existing| + if m.account != "" && Known(existing, m.account) == None then 1 else 0
  {
    MemberOrder();
    SortSorts(MemberLess, HearAll(existing, [m]));
    PermutationMembers(HearAll(existing, [m]), Merge(existing, [m]));
    assert [m][..0] == [];
    assert HearAll(existing, [m]) == Hear(existing, m);
  }

  lemma {:induction false} SavedMerge(before: Option<RoomState>, after: RoomState, incoming: seq<Member>)
    requires RoomOk(before) && after.members == Merge(Load(before).members, incoming) && |after.members| <= ROOM_CAP
    ensures RoomOk(Save(after)) && Grows(Load(before).members, Load(Save(after)).members)
  {
    LoadIsStored(before);
    MergeGrows(Load(before).members, incoming);
    MergeIsJoin(Load(before).members, incoming);
    SaveThenLoad(after, Load(before).members, incoming);
  }

  /** One event, of whatever kind and content. */
  lemma {:induction false} StepKeepsRoom(stored: Option<RoomState>, self: string, ev: Event)
    requires RoomOk(stored)
    ensures RoomOk(Step(stored, self, ev))
    ensures Grows(Load(stored).members, Load(Step(stored, self, ev)).members)
  {
    hide Load, Save, Merge, RoomOk, Grows;
    var s := Load(stored);
    assert Grows(s.members, s.members) by { GrowsReflexive(s.members); }
    match ev {
      case Announce(a) =>
        var members := Merge(s.members, a.members);
        if |members| <= ROOM_CAP { SavedMerge(stored, Announced(s, self, a, members), a.members); }
      case Message(contact, m, now) =>
        var members := Merge(s.members, [Member(contact, now)]);
        if |members| <= ROOM_CAP { SavedMerge(stored, s.(members := members, updatedAt := now), [Member(contact, now)]); }
      case JoinRoom(now) =>
        var members := Merge(s.members, [Member(self, now)]);
        if |s.members| < ROOM_CAP {
          LoadIsStored(stored);
          MergeOne(s.members, Member(self, now));
          var joined := s.(joined := true, joinedAt := now, updatedAt := now, members := members);
          SavedMerge(stored, joined, [Member(self, now)]);
        }
    }
  }

  lemma GrowsReflexive(a: seq<Member>)
    ensures Grows(a, a)
  {
  }

  lemma GrowsTransitive(a: seq<Member>, b: seq<Member>, c: seq<Member>)
    requires Grows(a, b) && Grows(b, c)
    ensures Grows(a, c)
  {
  }

  /** Room state invariant, over every run of joins, announcements and messages. */
  lemma {:induction false} RoomInvariant(stored: Option<RoomState>, self: string, events: seq<Event>)
    requires RoomOk(stored)
    ensures RoomOk(Run(stored, self, events))
    ensures Grows(Load(stored).members, Load(Run(stored, self, events)).members)
  {
    if events != [] {
      var front := events[..|events| - 1];
      RoomInvariant(stored, self, front);
      StepKeepsRoom(Run(stored, self, front), self, events[|events| - 1]);
      GrowsTransitive(Load(stored).members, Load(Run(stored, self, front)).members, Load(Run(stored, self, events)).members);
    }
  }

  /** A client that joined is one of its own members from then on. */
  lemma {:induction false} JoinedIsMember(stored: Option<RoomState>, self: string, now: int)
    requires RoomOk(stored) && self != "" && OnJoin(stored, self, now).1.Updated?
    ensures var after := Load(OnJoin(stored, self, now).0);
      && after.joined && after.joinedAt == now
      && Known(after.members, self) == Join(Known(Load(stored).members, self), Some(now))
  {
    LoadIsStored(stored);
    var s := Load(stored);
    MergeIsJoin(s.members, [Member(self, now)]);
    assert [Member(self, now)][..0] == [];
    assert Reported([Member(self, now)], self) == Some(now);
    var joined := s.(joined := true, joinedAt := now, updatedAt := now, members := Merge(s.members, [Member(self, now)]));
    SaveThenLoad(joined, s.members, [Member(self, now)]);
  }
}

/** Replicas that hear the same announcements agree. */
module RoomConvergence {
  import opened Foundations
  import opened RoomMembers
  import opened RoomStateModel
  import opened RoomStateInvariants

  function Receive(stored: Option<RoomState>, self: string, anns: seq<Announcement>): Option<RoomState> {
    if anns == [] then stored
    else OnAnnouncement(Receive(stored, self, anns[..|anns| - 1]), self, anns[|anns| - 1]).0
  }

  /** Some announcement for this room reports the account with this time. */
  ghost predicate Heard(anns: seq<Announcement>, account: string, t: int) {
    exists a, m :: a in anns && a.roomId == ROOM_ID && m in a.members && account != "" && m == Member(account, t)
  }

  /** k is what start and announcements together say: the earliest known time, zero if none is known. */
  ghost predicate IsJoinOf(start: Option<int>, anns: seq<Announcement>, account: string, k: Option<int>) {
    && (k == None <==> start == None && forall t :: !Heard(anns, account, t))
    && (k.Some? ==>
          && (start == k || Heard(anns, account, k.value) || (k.value == 0 && start.Some?))
          && (forall t :: t != 0 && (start == Some(t) || Heard(anns, account, t)) ==> k.value != 0 && k.value <= t))
  }

  lemma {:induction false} ReportedIsHeard(incoming: seq<Member>, account: string)
    ensures Reported(incoming, account) == None <==> forall t :: account == "" || Member(account, t) !in incoming
    ensures Reported(incoming, account).Some? ==>
      && account != "" && Member(account, Reported(incoming, account).value) in incoming
      && forall t :: t != 0 && Member(account, t) in incoming ==>
           Reported(incoming, account).value != 0 && Reported(incoming, account).value <= t
  {
    if incoming != [] {
      var front, last := incoming[..|incoming| - 1], incoming[|incoming| - 1];
      assert incoming == front + [last];
      ReportedIsHeard(front, account);
      if last.account == account { assert Member(account, last.joinedAt) in incoming; }
    }
  }

  lemma {:induction false} HeardGrows(front: seq<Announcement>, a: Announcement)
    ensures forall account, t :: Heard(front + [a], account, t) <==>
      Heard(front, account, t) || (a.roomId == ROOM_ID && account != "" && Member(account, t) in a.members)
  {
    forall account, t
      ensures Heard(front + [a], account, t) <==>
        Heard(front, account, t) || (a.roomId == ROOM_ID && account != "" && Member(account, t) in a.members)
    {
      assert a in front + [a] && forall b :: b in front ==> b in front + [a];
      if Heard(front, account, t) {
        var b, m :| b in front && b.roomId == ROOM_ID && m in b.members && account != "" && m == Member(account, t);
        assert b in front + [a];
      }
    }
  }

  lemma {:induction false} JoinStep(start: Option<int>, front: seq<Announcement>, a: Announcement, account: string, k: Option<int>)
    requires IsJoinOf(start, front, account, k) && a.roomId == ROOM_ID
    ensures IsJoinOf(start, front + [a], account, Join(k, Reported(a.members, account)))
  {
    HeardGrows(front, a);
    ReportedIsHeard(a.members, account);
  }

  lemma {:induction false} SameJoin(start: Option<int>, a: seq<Announcement>, b: seq<Announcement>, account: string, k: Option<int>, l: Option<int>)
    requires IsJoinOf(start, a, account, k) && IsJoinOf(start, b, account, l)
    requires forall x :: x in a <==> x in b
    ensures k == l
  {
    assert forall t :: Heard(a, account, t) <==> Heard(b, account, t);
    assert k.Some? <==> l.Some?;
    if k.Some? {
      assert Heard(a, account, k.value) <==> Heard(b, account, k.value);
      assert Heard(a, account, l.value) <==> Heard(b, account, l.value);
    }
  }

  // ---- the cap ----

  ghost predicate AccountsWithin(start: seq<Member>, anns: seq<Announcement>, accounts: set<string>) {
    && (forall m :: m in start ==> m.account in accounts)
    && (forall a, m :: a in anns && a.roomId == ROOM_ID && m in a.members && m.account != "" ==> m.account in accounts)
  }

  lemma {:induction false} FitsCap(ms: seq<Member>, accounts: set<string>)
    requires Distinct(ms) && forall a :: Known(ms, a).Some? ==> a in accounts
    ensures |ms| <= |accounts|
  {
    DistinctSize(ms);
    forall a | a in AccountSet(ms) ensures a in accounts {
      KnownIffMember(ms, a, 0);
    }
    SubsetSize(AccountSet(ms), accounts);
  }

  function AccountSet(ms: seq<Member>): set<string> {
    set m | m in ms :: m.account
  }

  lemma {:induction false} DistinctSize(ms: seq<Member>)
    requires Distinct(ms)
    ensures |AccountSet(ms)| == |ms|
  {
    if ms != [] {
      var front, last := ms[..|ms| - 1], ms[|ms| - 1];
      assert ms == front + [last];
      DistinctSize(front);
      assert AccountSet(ms) == AccountSet(front) + {last.account};
      KnownIffMember(front, last.account, 0);
      assert last.account !in AccountSet(front);
    }
  }

  /** The latest of the start and the announcements' update times. */
  ghost predicate IsLatest(start: int, anns: seq<Announcement>, u: int) {
    && start <= u && (forall a :: a in anns && a.roomId == ROOM_ID ==> a.updatedAt <= u)
    && (u == start || exists a :: a in anns && a.roomId == ROOM_ID && a.updatedAt == u)
  }

  lemma {:induction false} AnnouncementEffect(stored: Option<RoomState>, self: string, a: Announcement)
    requires RoomOk(stored) && a.roomId == ROOM_ID && |Merge(Load(stored).members, a.members)| <= ROOM_CAP
    ensures var after, before := Load(OnAnnouncement(stored, self, a).0), Load(stored);
      && RoomOk(OnAnnouncement(stored, self, a).0)
      && (forall x :: Known(after.members, x) == Join(Known(before.members, x), Reported(a.members, x)))
      && after.updatedAt == if before.updatedAt < a.updatedAt then a.updatedAt else before.updatedAt
  {
    LoadIsStored(stored);
    StepKeepsRoom(stored, self, Announce(a));
    MergeIsJoin(Load(stored).members, a.members);
    SaveThenLoad(Announced(Load(stored), self, a, Merge(Load(stored).members, a.members)), Load(stored).members, a.members);
  }

  lemma {:induction false} MergeFits(stored: Option<RoomState>, anns: seq<Announcement>, a: Announcement, start: seq<Member>, accounts: set<string>)
    requires RoomOk(stored) && Distinct(start) && a.roomId == ROOM_ID
    requires AccountsWithin(start, anns + [a], accounts) && |accounts| <= ROOM_CAP
    requires forall x :: IsJoinOf(Known(start, x), anns, x, Known(Load(stored).members, x))
    ensures |Merge(Load(stored).members, a.members)| <= ROOM_CAP
  {
    LoadIsStored(stored);
    var s := Load(stored).members;
    MergeIsJoin(s, a.members);
    forall x | Known(Merge(s, a.members), x).Some? ensures x in accounts {
      if Reported(a.members, x).Some? {
        ReportedIsHeard(a.members, x);
        assert a in anns + [a];
      } else {
        assert IsJoinOf(Known(start, x), anns, x, Known(s, x));
        if Known(start, x).Some? {
          KnownIffMember(start, x, Known(start, x).value);
        } else {
          assert Heard(anns, x, Known(s, x).value);
          var b, m :| b in anns && b.roomId == ROOM_ID && m in b.members && x != "" && m == Member(x, Known(s, x).value);
          assert b in anns + [a];
        }
      }
    }
    FitsCap(Merge(s, a.members), accounts);
  }

  lemma NothingHeard(stored: Option<RoomState>)
    requires RoomOk(stored)
    ensures var start := Load(stored);
      (forall x :: IsJoinOf(Known(start.members, x), [], x, Known(start.members, x))) && IsLatest(start.updatedAt, [], start.updatedAt)
  {
    LoadIsStored(stored);
    assert forall x, t :: !Heard([], x, t);
  }

  lemma {:induction false} WithinFront(start: seq<Member>, front: seq<Announcement>, a: Announcement, accounts: set<string>)
    requires AccountsWithin(start, front + [a], accounts)
    ensures AccountsWithin(start, front, accounts)
  {
    assert forall b :: b in front ==> b in front + [a];
  }

  /** After any announcements the state is the join of the start and everything heard. */
  lemma {:induction false} ReceivedIsJoin(stored: Option<RoomState>, self: string, anns: seq<Announcement>, accounts: set<string>)
    requires RoomOk(stored) && AccountsWithin(Load(stored).members, anns, accounts) && |accounts| <= ROOM_CAP
    ensures RoomOk(Receive(stored, self, anns))
    ensures var before, after := Load(stored), Load(Receive(stored, self, anns));
      && (forall x :: IsJoinOf(Known(before.members, x), anns, x, Known(after.members, x)))
      && IsLatest(before.updatedAt, anns, after.updatedAt)
  {
    hide Load, Known, OnAnnouncement, RoomOk, IsJoinOf, AccountsWithin;
    if anns == [] {
      NothingHeard(stored);
    } else {
      var front, a := anns[..|anns| - 1], anns[|anns| - 1];
      assert anns == front + [a];
      WithinFront(Load(stored).members, front, a, accounts);
      ReceivedIsJoin(stored, self, front, accounts);
      ReceiveOne(stored, self, front, a, accounts);
    }
  }

  lemma {:induction false} ReceiveOne(stored: Option<RoomState>, self: string, front: seq<Announcement>, a: Announcement, accounts: set<string>)
    requires RoomOk(stored) && AccountsWithin(Load(stored).members, front + [a], accounts) && |accounts| <= ROOM_CAP
    requires RoomOk(Receive(stored, self, front))
    requires forall x :: IsJoinOf(Known(Load(stored).members, x), front, x, Known(Load(Receive(stored, self, front)).members, x))
    requires IsLatest(Load(stored).updatedAt, front, Load(Receive(stored, self, front)).updatedAt)
    ensures var start, mid := Load(stored), Receive(stored, self, front);
      var after := Load(OnAnnouncement(mid, self, a).0);
      && RoomOk(OnAnnouncement(mid, self, a).0)
      && (forall x :: IsJoinOf(Known(start.members, x), front + [a], x, Known(after.members, x)))
      && IsLatest(start.updatedAt, front + [a], after.updatedAt)
  {
    hide Load, Receive, Known, Reported, Merge;
    var start, mid := Load(stored), Receive(stored, self, front);
    LoadIsStored(stored);
    HeardGrows(front, a);
    LatestStep(start.updatedAt, front, a, Load(mid).updatedAt);
    if a.roomId == ROOM_ID {
      MergeFits(mid, front, a, start.members, accounts);
      AnnouncementEffect(mid, self, a);
      hide OnAnnouncement, RoomOk;
      var after := Load(OnAnnouncement(mid, self, a).0);
      forall x ensures IsJoinOf(Known(start.members, x), front + [a], x, Known(after.members, x)) {
        JoinStep(Known(start.members, x), front, a, x, Known(Load(mid).members, x));
      }
    }
  }

  lemma {:induction false} LatestStep(start: int, front: seq<Announcement>, a: Announcement, u: int)
    requires IsLatest(start, front, u)
    ensures a.roomId == ROOM_ID ==> IsLatest(start, front + [a], if u < a.updatedAt then a.updatedAt else u)
    ensures a.roomId != ROOM_ID ==> IsLatest(start, front + [a], u)
  {
    assert a in front + [a] && forall b :: b in front ==> b in front + [a];
    assert forall b :: b in front + [a] ==> b in front || b == a;
  }

  /** The accounts of the start and of everything heard. */
  ghost predicate AreInvolved(start: seq<Member>, anns: seq<Announcement>, accounts: set<string>) {
    forall x :: x in accounts <==> Known(start, x).Some? || exists t :: Heard(anns, x, t)
  }

  lemma {:induction false} ReceiveKeepsRoom(stored: Option<RoomState>, self: string, anns: seq<Announcement>)
    requires RoomOk(stored)
    ensures RoomOk(Receive(stored, self, anns))
  {
    hide OnAnnouncement, RoomOk;
    if anns != [] {
      var k := |anns| - 1;
      ReceiveKeepsRoom(stored, self, anns[..k]);
      StepKeepsRoom(Receive(stored, self, anns[..k]), self, Announce(anns[k]));
    }
  }

  lemma {:induction false} InvolvedAreWithin(start: seq<Member>, anns: seq<Announcement>, accounts: set<string>)
    requires Distinct(start) && AreInvolved(start, anns, accounts)
    ensures AccountsWithin(start, anns, accounts)
  {
    forall m | m in start ensures m.account in accounts { KnownIffMember(start, m.account, m.joinedAt); }
    forall a, m | a in anns && a.roomId == ROOM_ID && m in a.members && m.account != "" ensures m.account in accounts {
      assert m == Member(m.account, m.joinedAt);
      assert Heard(anns, m.account, m.joinedAt);
    }
  }

  /**
   Whatever is announced, and in whatever order, a replica ends with the join
   of its start and everything heard exactly if no more than 16 accounts are
   involved.
   */
  lemma {:induction false} JoinOfAllIff(stored: Option<RoomState>, self: string, anns: seq<Announcement>, accounts: set<string>)
    requires RoomOk(stored) && AreInvolved(Load(stored).members, anns, accounts)
    ensures var before, after := Load(stored).members, Load(Receive(stored, self, anns)).members;
      (forall x :: IsJoinOf(Known(before, x), anns, x, Known(after, x))) <==> |accounts| <= ROOM_CAP
  {
    hide Receive, Load, Known;
    var before, after := Load(stored).members, Load(Receive(stored, self, anns)).members;
    LoadIsStored(stored);
    if |accounts| <= ROOM_CAP {
      InvolvedAreWithin(before, anns, accounts);
      ReceivedIsJoin(stored, self, anns, accounts);
    }
    if forall x :: IsJoinOf(Known(before, x), anns, x, Known(after, x)) {
      ReceiveKeepsRoom(stored, self, anns);
      LoadIsStored(Receive(stored, self, anns));
      forall x | x in accounts ensures x in AccountSet(after) {
        assert IsJoinOf(Known(before, x), anns, x, Known(after, x));
        KnownIffMember(after, x, Known(after, x).value);
      }
      DistinctSize(after);
      SubsetSize(accounts, AccountSet(after));
    }
  }

  /**
   Convergence: replicas of different clients that start from the same members
   and update time and receive the same announcements, in any order and with
   any repetition, end with identical member lists and update times, provided
   no more than 16 accounts are involved.
   */
  lemma {:induction false} ReplicasConverge(p: Option<RoomState>, selfP: string, annsP: seq<Announcement>,
                         q: Option<RoomState>, selfQ: string, annsQ: seq<Announcement>, accounts: set<string>)
    requires RoomOk(p) && RoomOk(q)
    requires Load(p).members == Load(q).members && Load(p).updatedAt == Load(q).updatedAt
    requires forall a :: a in annsP <==> a in annsQ
    requires AccountsWithin(Load(p).members, annsP, accounts) && |accounts| <= ROOM_CAP
    ensures Load(Receive(p, selfP, annsP)).members == Load(Receive(q, selfQ, annsQ)).members
    ensures Load(Receive(p, selfP, annsP)).updatedAt == Load(Receive(q, selfQ, annsQ)).updatedAt
  {
    ReceivedIsJoin(p, selfP, annsP, accounts);
    ReceivedIsJoin(q, selfQ, annsQ, accounts);
    hide Receive, Load, Known;
    LoadIsStored(Receive(p, selfP, annsP));
    LoadIsStored(Receive(q, selfQ, annsQ));
    var mp, mq := Load(Receive(p, selfP, annsP)).members, Load(Receive(q, selfQ, annsQ)).members;
    forall x ensures Known(mp, x) == Known(mq, x) {
      SameJoin(Known(Load(p).members, x), annsP, annsQ, x, Known(mp, x), Known(mq, x));
    }
    CanonicalIsUnique(mp, mq);
  }

  /** What a full room does with one more account, and a nearly full one. */
  lemma {:induction false} OneMoreAccount(stored: Option<RoomState>, self: string, m: Member, at: int)
    requires RoomOk(stored) && m.account != "" && Known(Load(stored).members, m.account) == None
    ensures var after := OnAnnouncement(stored, self, Announcement(ROOM_ID, at, [m])).0;
      if |Load(stored).members| == ROOM_CAP then after == stored
      else
        && RoomOk(after) && |Load(after).members| == |Load(stored).members| + 1
        && forall x :: Known(Load(after).members, x) == if x == m.account then Some(m.joinedAt) else Known(Load(stored).members, x)
  {
    LoadIsStored(stored);
    MergeOne(Load(stored).members, m);
    if |Load(stored).members| < ROOM_CAP {
      GetsIn(stored, self, Announcement(ROOM_ID, at, [m]), m);
    }
  }

  lemma {:induction false} GetsIn(stored: Option<RoomState>, self: string, a: Announcement, m: Member)
    requires RoomOk(stored) && a.roomId == ROOM_ID && a.members == [m] && m.account != ""
    requires Known(Load(stored).members, m.account) == None && |Load(stored).members| < ROOM_CAP
    ensures var after := OnAnnouncement(stored, self, a).0;
      && RoomOk(after) && |Load(after).members| == |Load(stored).members| + 1
      && forall x :: Known(Load(after).members, x) == if x == m.account then Some(m.joinedAt) else Known(Load(stored).members, x)
  {
    hide Load, Known, Merge;
    LoadIsStored(stored);
    MergeOne(Load(stored).members, m);
    AnnouncementEffect(stored, self, a);
    ReportedOne(m);
    var members := Merge(Load(stored).members, [m]);
    SaveThenLoad(Announced(Load(stored), self, a, members), Load(stored).members, [m]);
  }

  lemma {:induction false} ReportedOne(m: Member)
    requires m.account != ""
    ensures forall x :: Reported([m], x) == if x == m.account then Some(m.joinedAt) else None
  {
    assert [m][..0] == [];
  }

  /** The smallest case above the cap: with 15 members and two newcomers, the order of the announcements decides who gets in. */
  lemma {:induction false} OverCapDiverges(stored: Option<RoomState>, self: string, x: Member, y: Member, at: int)
    requires RoomOk(stored) && |Load(stored).members| == ROOM_CAP - 1
    requires x.account != "" && y.account != "" && x.account != y.account
    requires Known(Load(stored).members, x.account) == None && Known(Load(stored).members, y.account) == None
    ensures var ax, ay := Announcement(ROOM_ID, at, [x]), Announcement(ROOM_ID, at, [y]);
      var first, second := Load(Receive(stored, self, [ax, ay])).members, Load(Receive(stored, self, [ay, ax])).members;
      && Known(first, x.account) == Some(x.joinedAt) && Known(first, y.account) == None
      && Known(second, y.account) == Some(y.joinedAt) && Known(second, x.account) == None
  {
    var ax, ay := Announcement(ROOM_ID, at, [x]), Announcement(ROOM_ID, at, [y]);
    hide OnAnnouncement, Load, Known;
    OneMoreAccount(stored, self, x, at);
    OneMoreAccount(OnAnnouncement(stored, self, ax).0, self, y, at);
    OneMoreAccount(stored, self, y, at);
    OneMoreAccount(OnAnnouncement(stored, self, ay).0, self, x, at);
    assert [ax, ay][..1] == [ax] && [ay, ax][..1] == [ay] && [ax][..0] == [] && [ay][..0] == [];
    assert Receive(stored, self, [ax]) == OnAnnouncement(stored, self, ax).0;
    assert Receive(stored, self, [ay]) == OnAnnouncement(stored, self, ay).0;
  }
}

/** What each event does to the stored room, and what it answers. */
module RoomReplies {
  import opened Foundations
  import opened RoomMembers
  import opened RoomStateModel
  import opened RoomStateInvariants
  import opened RoomConvergence

  /** What the list says about every account but one is as before. */
  ghost predicate SameBut(before: seq<Member>, after: seq<Member>, account: string) {
    forall x :: x != account ==> Known(after, x) == Known(before, x)
  }

  lemma {:induction false} LoadedFields(stored: Option<RoomState>)
    requires RoomOk(stored)
    ensures Load(stored).joined <==> stored.Some? && stored.value.joined
    ensures Load(stored).members == if stored.None? then [] else stored.value.members
    ensures stored.Some? ==> Load(stored).joinedAt == stored.value.joinedAt && Load(stored).updatedAt == stored.value.updatedAt
  {
    LoadIsStored(stored);
  }

  /** Reading the room: a fresh one if none is stored, otherwise what is stored, with the room's own ID and name where they are missing. */
  lemma {:induction false} LoadMeaning(stored: Option<RoomState>)
    requires RoomOk(stored)
    ensures stored.None? ==> Load(stored) == RoomState("default", "general", false, 0, [], 0)
    ensures stored.Some? ==>
      var s := stored.value;
      Load(stored) == RoomState(if s.id == "" then "default" else s.id, if s.name == "" then "general" else s.name,
                                s.joined, s.joinedAt, s.members, s.updatedAt)
  {
    LoadIsStored(stored);
  }

  lemma {:induction false} MergedOne(s: RoomState, existing: seq<Member>, m: Member)
    requires Canonical(existing) && s.members == Merge(existing, [m]) && m.account != "" && Known(existing, m.account) == None
    ensures |s.members| == |existing| + 1
    ensures Load(Save(s)).members == s.members && Save(s) == Some(s)
    ensures Known(s.members, m.account) == Some(m.joinedAt) && SameBut(existing, s.members, m.account)
  {
    MergeOne(existing, m);
    MergeIsJoin(existing, [m]);
    ReportedOne(m);
    SaveThenLoad(s, existing, [m]);
  }

  /**
   A room message: refused without ID, without sender, and when the sender it
   names is not the contact it came from; otherwise it is delivered, and a
   contact seen for the first time becomes a member from now on, unless the
   room is full. Nothing else changes.
   */
  lemma {:induction false} MessageMeaning(stored: Option<RoomState>, contact: string, m: RoomMessage, now: int)
    requires RoomOk(stored)
    ensures var (after, reply) := OnMessage(stored, contact, m, now);
      var before := if stored.None? then [] else stored.value.members;
      var here, genuine := m.roomId == "default", m.messageId != "" && m.sender == contact != "";
      var known := exists x :: x in before && x.account == contact;
      && (reply.MissingId? <==> here && m.messageId == "")
      && (reply.MissingSender? <==> here && m.messageId != "" && m.sender == "")
      && (reply.SenderMismatch? <==> here && m.messageId != "" && m.sender != "" && m.sender != contact)
      && (reply.Delivered? <==> here && genuine && (known || |before| < 16))
      && (reply.Delivered? && !known <==> after != stored)
      && (reply.Delivered? && !known ==>
            && after.Some? && RoomOk(after) && |after.value.members| == |before| + 1 && after.value.updatedAt == now
            && Known(after.value.members, contact) == Some(now) && SameBut(before, after.value.members, contact)
            && after.value.joined == Load(stored).joined && after.value.joinedAt == Load(stored).joinedAt)
  {
    hide Load, Save, Merge, Known, RoomOk, SameBut;
    var s := Load(stored);
    LoadIsStored(stored);
    LoadedFields(stored);
    StepKeepsRoom(stored, "", Message(contact, m, now));
    JoinTimeIsKnown(s.members, contact);
    KnownIffMember(s.members, contact, 0);
    if m.sender == contact != "" && Known(s.members, contact) == None {
      var s' := s.(members := Merge(s.members, [Member(contact, now)]), updatedAt := now);
      MergedOne(s', s.members, Member(contact, now));
      if stored.Some? { assert |s'.members| != |stored.value.members|; }
    }
  }

  /** Joining: refused to a member and in a full room; otherwise the client is a member from now on, or from when it was known before. */
  lemma {:induction false} JoinMeaning(stored: Option<RoomState>, self: string, now: int)
    requires RoomOk(stored) && self != ""
    ensures var (after, reply) := OnJoin(stored, self, now);
      var before := if stored.None? then [] else stored.value.members;
      && (reply.AlreadyJoined? <==> stored.Some? && stored.value.joined)
      && (reply.RoomFull? <==> !(stored.Some? && stored.value.joined) && |before| >= 16)
      && (reply.AlreadyJoined? || reply.RoomFull? ==> after == stored)
      && (!reply.AlreadyJoined? && !reply.RoomFull? ==>
            && reply.Updated? && after == Some(reply.state)
            && after.value.joined && after.value.joinedAt == now && after.value.updatedAt == now
            && Known(after.value.members, self) == Join(Known(before, self), Some(now)) && SameBut(before, after.value.members, self))
  {
    LoadIsStored(stored);
    LoadedFields(stored);
    var s := Load(stored);
    MergeIsJoin(s.members, [Member(self, now)]);
    ReportedOne(Member(self, now));
    var s' := s.(joined := true, joinedAt := now, updatedAt := now, members := Merge(s.members, [Member(self, now)]));
    SaveThenLoad(s', s.members, [Member(self, now)]);
  }

  /** A full room answers so in any case; otherwise the answer is an error if the announcement cannot be encrypted, and the state is saved all the same. */
  lemma {:induction false} AnnouncingMeaning(stored: Option<RoomState>, self: string, now: int, encrypts: bool)
    requires RoomOk(stored) && self != ""
    ensures var (after, reply) := Announcing(OnJoin(stored, self, now), encrypts);
      var full := !(stored.Some? && stored.value.joined) && |if stored.None? then [] else stored.value.members| >= 16;
      && after == OnJoin(stored, self, now).0
      && (reply.RoomFull? <==> full) && (reply.NotAnnounced? <==> !full && !encrypts)
      && (encrypts ==> reply == OnJoin(stored, self, now).1)
  {
    JoinMeaning(stored, self, now);
  }

  /** The accounts a list names. */
  function Named(ms: seq<Member>): set<string> {
    set m | m in ms && m.account != "" :: m.account
  }

  lemma {:induction false} MergedSize(existing: seq<Member>, incoming: seq<Member>)
    requires Canonical(existing)
    ensures |Merge(existing, incoming)| == |Named(existing) + Named(incoming)|
  {
    var merged := Merge(existing, incoming);
    MergeIsJoin(existing, incoming);
    DistinctSize(merged);
    forall x ensures x in AccountSet(merged) <==> x in Named(existing) + Named(incoming) {
      KnownIffMember(merged, x, 0);
      KnownIffMember(existing, x, 0);
      ReportedIsHeard(incoming, x);
      if x in Named(incoming) {
        var m :| m in incoming && m.account == x;
        assert Member(x, m.joinedAt) in incoming;
      }
      if x in Named(existing) {
        var m :| m in existing && m.account == x;
        assert Known(existing, x).Some?;
      }
    }
    assert AccountSet(merged) == Named(existing) + Named(incoming);
  }

  /**
   An announcement is taken exactly if it is for this room and the accounts of
   both lists together are at most 16; if not, nothing changes. A client that
   joined at an unknown time takes its own join time from the list.
   */
  lemma {:induction false} AnnouncementMeaning(stored: Option<RoomState>, self: string, a: Announcement)
    requires RoomOk(stored)
    ensures var (after, reply) := OnAnnouncement(stored, self, a);
      var before := if stored.None? then [] else stored.value.members;
      && (reply.Updated? <==> a.roomId == "default" && |Named(before) + Named(a.members)| <= 16)
      && (!reply.Updated? ==> reply.Ignored? && after == stored)
      && (reply.Updated? ==>
            && after == Some(reply.state) && RoomOk(after)
            && after.value.joined == Load(stored).joined
            && (after.value.joinedAt ==
                  if Load(stored).joined && Load(stored).joinedAt == 0 && Known(after.value.members, self).Some?
                  then Known(after.value.members, self).value else Load(stored).joinedAt))
  {
    LoadIsStored(stored);
    LoadedFields(stored);
    var s := Load(stored);
    MergedSize(s.members, a.members);
    MergeIsJoin(s.members, a.members);
    JoinTimeIsKnown(Merge(s.members, a.members), self);
    SaveThenLoad(Announced(s, self, a, Merge(s.members, a.members)), s.members, a.members);
  }
}

/** The room service as an object over a store, with the member lists in arrays. */
module RoomService {
  import opened Foundations
  import opened RoomMembers
  import opened RoomLists
  import opened RoomStateModel
  import opened RoomStateInvariants

  class RoomStore {
    var saved: Option<RoomState>

    constructor ()
      ensures saved == None
    {
      saved := None;
    }

    method LoadRoomState() returns (s: RoomState)
      ensures s == Load(saved)
    {
      if saved.None? {
        return FRESH;
      }
      var stored := saved.value;
      var a := new Member[|stored.members|](i requires 0 <= i < |stored.members| => stored.members[i]);
      assert a[..] == stored.members;
      var n := NormalizeMembers(a);
      s := stored.(members := a[..n]);
      if s.id == "" {
        s := s.(id := ROOM_ID);
      }
      if s.name == "" {
        s := s.(name := ROOM_NAME);
      }
    }

    /**
     The saved copy shares its member array with the caller's state, so saving
     rewrites the caller's list. A canonical list comes out unchanged.
     */
    method SaveRoomState(header: RoomState, members: array<Member>)
      modifies this, members
      ensures saved == Save(header.(members := old(members[..])))
      ensures Canonical(old(members[..])) ==> members[..] == old(members[..])
    {
      ghost var before := members[..];
      var n := NormalizeMembers(members);
      saved := Some(header.(members := members[..n]));
      if Canonical(before) {
        NormalizeFixes(before);
        assert members[..] == members[..n];
      }
    }
  }

  class Service {
    const self: string
    const store: RoomStore

    constructor (self: string, store: RoomStore)
      ensures this.self == self && this.store == store
    {
      this.self, this.store := self, store;
    }

    method FindJoinTime(members: seq<Member>, account: string) returns (found: Option<int>)
      ensures found == JoinTimeOf(members, account)
    {
      var i := 0;
      while i < |members|
        invariant 0 <= i <= |members|
        invariant JoinTimeOf(members, account) == JoinTimeOf(members[i..], account)
      {
        if members[i].account == account {
          return Some(members[i].joinedAt);
        }
        assert members[i..][1..] == members[i + 1..];
        i := i + 1;
      }
      return None;
    }

    /** Replies with the state whose list the store has just rewritten. */
    method HandleRoomMembership(a: Announcement) returns (reply: Reply)
      modifies store
      ensures (store.saved, reply) == OnAnnouncement(old(store.saved), self, a)
    {
      if a.roomId != ROOM_ID {
        return Ignored;
      }
      var state := store.LoadRoomState();
      LoadIsCanonical(store.saved);
      MergeIsJoin(state.members, a.members);
      var members := MergeRoomMembers(state.members, a.members);
      if members.Length > ROOM_CAP {
        return Ignored;
      }
      state := state.(members := members[..]);
      if state.updatedAt < a.updatedAt {
        state := state.(updatedAt := a.updatedAt);
      }
      if state.joined && state.joinedAt == 0 {
        var own := FindJoinTime(state.members, self);
        if own.Some? {
          state := state.(joinedAt := own.value);
        }
      }
      store.SaveRoomState(state, members);
      reply := Updated(state.(members := members[..]));
    }

    method HandleRoomMessage(contact: string, m: RoomMessage, now: int) returns (reply: Reply)
      modifies store
      ensures (store.saved, reply) == OnMessage(old(store.saved), contact, m, now)
    {
      if m.roomId != ROOM_ID {
        return Ignored;
      }
      if m.messageId == "" {
        return MissingId;
      }
      if m.sender == "" {
        return MissingSender;
      }
      if m.sender != contact {
        return SenderMismatch;
      }
      var state := store.LoadRoomState();
      var known := FindJoinTime(state.members, contact);
      if known.None? {
        var members := MergeRoomMembers(state.members, [Member(contact, now)]);
        if members.Length > ROOM_CAP {
          return Ignored;
        }
        state := state.(members := members[..], updatedAt := now);
        store.SaveRoomState(state, members);
      }
      return Delivered;
    }

    /** encrypts: whether the announcement can be encrypted for every contact. */
    method JoinDefaultRoom(now: int, encrypts: bool) returns (reply: Reply)
      modifies store
      ensures (store.saved, reply) == Announcing(OnJoin(old(store.saved), self, now), encrypts)
    {
      var state := store.LoadRoomState();
      if state.joined {
        return if encrypts then AlreadyJoined else NotAnnounced;
      }
      if |state.members| >= ROOM_CAP {
        return RoomFull;
      }
      LoadIsCanonical(store.saved);
      MergeIsJoin(state.members, [Member(self, now)]);
      var members := MergeRoomMembers(state.members, [Member(self, now)]);
      state := state.(joined := true, joinedAt := now, updatedAt := now, members := members[..]);
      store.SaveRoomState(state, members);
      reply := if encrypts then Updated(state.(members := members[..])) else NotAnnounced;
    }
  }
}
