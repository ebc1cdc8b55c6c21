/** Asking another member for the room's recent history, and merging the answer. */
module HistorySyncModel {
  import opened Foundations
  import opened RoomMembers
  import opened RoomStateModel
  import opened RoomHistoryModel

  const MAX_AGE := 7 * 24 * 60 * 60 * 1_000_000_000
  const CHUNK_RECORDS := 64

  datatype Request = Request(roomId: string, requestId: string, since: int, until: int)

  datatype Chunk = Chunk(roomId: string, requestId: string, records: seq<Record>, last: bool)

  datatype Answer = NoAnswer | MissingRequestId | Chunks(chunks: seq<Chunk>)

  datatype Handling = Skipped | ChunkWithoutId | Handled(requestId: string, added: nat, complete: bool)

  function Later(a: int, b: int): int {
    if a > b then a else b
  }

  /** The request a joined client sends. */
  function RequestFor(s: RoomState, requestId: string, now: int): Request {
    Request(ROOM_ID, requestId, Later(now - MAX_AGE, s.joinedAt), now)
  }

  datatype Asking = NotJoined | NobodyToAsk | NotEncrypted | Asked(request: Request, recipients: seq<string>)

  /** The members a client can write to: others for whom it has a contact to send to, in list order. */
  function Recipients(members: seq<Member>, self: string, reachable: set<string>): seq<string> {
    if members == [] then []
    else
      var rest, account := Recipients(members[..|members| - 1], self, reachable), members[|members| - 1].account;
      if account == "" || account == self || account !in reachable then rest else rest + [account]
  }

  /** RequestDefaultRoomHistory; encryptable: the accounts session.Encrypt works for. One failure fails the whole call. */
  function Ask(s: RoomState, self: string, reachable: set<string>, encryptable: set<string>, requestId: string, now: int): Asking {
    if !s.joined then NotJoined
    else
      var recipients := Recipients(s.members, self, reachable);
      if recipients == [] then NobodyToAsk
      else if exists a :: a in recipients && a !in encryptable then NotEncrypted
      else Asked(RequestFor(s, requestId, now), recipients)
  }

  function WindowStart(requesterJoin: int, r: Request, now: int): int {
    Later(Later(now - MAX_AGE, requesterJoin), r.since)
  }

  function WindowEnd(requesterJoin: int, r: Request, now: int): int {
    var until := if r.until != 0 && r.until < now then r.until else now;
    Later(until, WindowStart(requesterJoin, r, now))
  }

  function ChunkCount(n: nat): nat {
    if n == 0 then 1 else (n + CHUNK_RECORDS - 1) / CHUNK_RECORDS
  }

  function Part(records: seq<Record>, i: nat): seq<Record>
    requires i < ChunkCount(|records|)
  {
    records[i * CHUNK_RECORDS..if (i + 1) * CHUNK_RECORDS < |records| then (i + 1) * CHUNK_RECORDS else |records|]
  }

  function Split(records: seq<Record>, requestId: string): seq<Chunk> {
    seq(ChunkCount(|records|), i requires 0 <= i < ChunkCount(|records|) =>
      Chunk(ROOM_ID, requestId, Part(records, i), i == ChunkCount(|records|) - 1))
  }

  /** handleRoomHistoryRequest on the responder's loaded state and history file. */
  function OnRequest(s: RoomState, h: seq<Record>, contact: string, r: Request, now: int): Answer {
    if r.roomId != ROOM_ID then NoAnswer
    else if r.requestId == "" then MissingRequestId
    else if !s.joined then NoAnswer
    else
      var joined := JoinTimeOf(s.members, contact);
      if joined.None? then NoAnswer
      else Chunks(Split(Window(Unexpired(h, now), WindowStart(joined.value, r, now), WindowEnd(joined.value, r, now)), r.requestId))
  }

  predicate Acceptable(s: RoomState, now: int, r: Record) {
    && r.id != "" && r.sender != "" && r.timestamp != 0
    && Later(now - MAX_AGE, s.joinedAt) <= r.timestamp <= now
    && JoinTimeOf(s.members, r.sender).Some?
    && Lasting(r, now)
  }

  function AcceptableTo(s: RoomState, now: int): Record -> bool {
    (r: Record) => Acceptable(s, now, r)
  }

  /** handleRoomHistoryChunk, as a relation because the merge's sort leaves ties open. */
  ghost predicate OnChunk(s: RoomState, contact: string, c: Chunk, now: int, h: seq<Record>, h': seq<Record>, out: Handling) {
    if c.roomId != ROOM_ID then h' == h && out == Skipped
    else if c.requestId == "" then h' == h && out == ChunkWithoutId
    else if !s.joined || JoinTimeOf(s.members, contact).None? then h' == h && out == Skipped
    else
      && out.Handled? && out.requestId == c.requestId && out.complete == c.last
      && Merged(h, Filter(AcceptableTo(s, now), c.records), now, h', out.added)
  }
}

module HistorySyncProofs {
  import opened Foundations
  import opened Sorting
  import opened RoomMembers
  import opened RoomStateModel
  import opened RoomStateInvariants
  import opened RoomHistoryModel
  import opened RoomHistoryProofs
  import opened HistorySyncModel

  // ---- the responder ----

  /**
   What is sent lies in the window: nothing older than a week, than the
   requester's join time or than the requested start (a start of zero is the
   one case in which the store does not look at the start), nothing later than
   now, nothing expired, and everything in the responder's history that fits.
   */
  lemma {:induction false} AnswerIsWindow(s: RoomState, h: seq<Record>, contact: string, r: Request, now: int)
    requires OnRequest(s, h, contact, r, now).Chunks?
    ensures var join := JoinTimeOf(s.members, contact);
      && s.joined && join.Some?
      && var since, until := WindowStart(join.value, r, now), WindowEnd(join.value, r, now);
         var sent := Window(Unexpired(h, now), since, until);
         && since >= now - MAX_AGE && since >= join.value && since >= r.since
         && OnRequest(s, h, contact, r, now).chunks == Split(sent, r.requestId)
         && (forall x :: x in sent ==> x in h && Lasting(x, now))
         && (forall x :: x in sent ==> (since != 0 ==> x.timestamp >= since) && (until != 0 ==> x.timestamp <= until))
         && (forall x :: x in h && Lasting(x, now) && since <= x.timestamp <= until ==> x in sent)
  {
    var join := JoinTimeOf(s.members, contact).value;
    WindowMembers(h, WindowStart(join, r, now), WindowEnd(join, r, now), now);
  }

  /** The other members a client can reach. */
  ghost predicate Reaches(s: RoomState, self: string, reachable: set<string>, account: string) {
    account in reachable && account != self && JoinTimeOf(s.members, account).Some?
  }

  /** A client asks exactly the other members it can reach: nobody exactly if there are none, and all or none of them. */
  lemma {:induction false} AsksReachableMembers(s: RoomState, self: string, reachable: set<string>, encryptable: set<string>,
                                                requestId: string, now: int)
    requires s.joined && Distinct(s.members)
    ensures var asking := Ask(s, self, reachable, encryptable, requestId, now);
      && (asking.NobodyToAsk? <==> forall a :: !Reaches(s, self, reachable, a))
      && (asking.NotEncrypted? <==> exists a :: Reaches(s, self, reachable, a) && a !in encryptable)
      && (asking.Asked? ==>
            && asking.request == RequestFor(s, requestId, now)
            && forall a :: a in asking.recipients <==> Reaches(s, self, reachable, a))
  {
    RecipientsAre(s.members, self, reachable);
    forall a ensures JoinTimeOf(s.members, a).Some? <==> exists m :: m in s.members && m.account == a { JoinTimeIffMember(s.members, a); }
    forall a ensures a in Recipients(s.members, self, reachable) <==> Reaches(s, self, reachable, a) {
      if m: Member :| m in s.members && m.account == a { NamedMember(s.members, m); }
    }
    if Recipients(s.members, self, reachable) != [] {
      assert Recipients(s.members, self, reachable)[0] in Recipients(s.members, self, reachable);
    }
  }

  lemma NamedMember(members: seq<Member>, m: Member)
    requires Distinct(members) && m in members
    ensures m.account != ""
  {
  }

  lemma {:induction false} JoinTimeIffMember(members: seq<Member>, account: string)
    ensures JoinTimeOf(members, account).Some? <==> exists m :: m in members && m.account == account
  {
    if members != [] {
      JoinTimeIffMember(members[1..], account);
      assert members == [members[0]] + members[1..];
    }
  }

  lemma {:induction false} RecipientsAre(members: seq<Member>, self: string, reachable: set<string>)
    ensures forall a :: a in Recipients(members, self, reachable) <==>
      a != "" && a != self && a in reachable && exists m :: m in members && m.account == a
  {
    if members != [] {
      var front, last := members[..|members| - 1], members[|members| - 1];
      assert members == front + [last];
      RecipientsAre(front, self, reachable);
    }
  }

  lemma {:induction false} WindowMembers(h: seq<Record>, since: int, until: int, now: int)
    ensures forall x :: x in Window(Unexpired(h, now), since, until) <==>
      x in h && Lasting(x, now) && (since == 0 || x.timestamp >= since) && (until == 0 || x.timestamp <= until)
  {
    FilterMembers(LastingAt(now), h);
    FilterMembers((r: Record) => (since == 0 || r.timestamp >= since) && (until == 0 || r.timestamp <= until), Unexpired(h, now));
  }

  /** Nothing outside the bounds is handed out, whatever the history. */
  ghost predicate StaysInside(since: int, until: int, now: int) {
    forall h, x :: x in Window(Unexpired(h, now), since, until) ==> since <= x.timestamp <= until
  }

  /** The store keeps what it hands out inside its bounds exactly if neither bound is the zero time. */
  lemma {:induction false} StaysInsideIff(since: int, until: int, now: int)
    requires since <= until
    ensures StaysInside(since, until, now) <==> since != 0 && until != 0
  {
    hide Window, Unexpired;
    if since != 0 && until != 0 {
      forall h, x | x in Window(Unexpired(h, now), since, until) ensures since <= x.timestamp <= until {
        WindowMembers(h, since, until, now);
      }
    } else {
      var x := Record("id", "sender", "mailbox", "body", if since == 0 then -1 else 1, 0);
      WindowMembers([x], since, until, now);
      assert x in Window(Unexpired([x], now), since, until);
    }
  }

  /** The chunks carry every record once, in order, at most 64 each, and only the final one says so. */
  lemma {:induction false} SplitIsFaithful(records: seq<Record>, requestId: string)
    ensures var chunks := Split(records, requestId);
      && |chunks| == ChunkCount(|records|) >= 1
      && (forall i :: 0 <= i < |chunks| ==> |chunks[i].records| <= 64 && (chunks[i].last <==> i == |chunks| - 1))
      && (forall i :: 0 <= i < |chunks| - 1 ==> |chunks[i].records| == 64)
      && Joined(records, |chunks|) == records
  {
    JoinedPrefix(records, ChunkCount(|records|));
    assert records[..|records|] == records;
  }

  function Joined(records: seq<Record>, n: nat): seq<Record>
    requires n <= ChunkCount(|records|)
  {
    if n == 0 then [] else Joined(records, n - 1) + Part(records, n - 1)
  }

  lemma {:induction false} JoinedPrefix(records: seq<Record>, n: nat)
    requires n <= ChunkCount(|records|)
    ensures Joined(records, n) == records[..if n * CHUNK_RECORDS < |records| then n * CHUNK_RECORDS else |records|]
  {
    if n > 0 {
      JoinedPrefix(records, n - 1);
      assert (n - 1) * CHUNK_RECORDS <= |records|;
    }
  }

  // ---- the requester, chunk by chunk ----

  /** The records of the answer that the requester is missing and accepts. */
  ghost function Missing(s: RoomState, now: int, h: seq<Record>, records: seq<Record>): seq<Record> {
    Filter((r: Record) => Acceptable(s, now, r) && r.id !in Ids(Unexpired(h, now)), records)
  }

  /** What the handled chunks contribute: the missing records of each chunk in got, among the first n. */
  ghost function Contribution(s: RoomState, now: int, h: seq<Record>, records: seq<Record>, got: set<nat>, n: nat): multiset<Record>
    requires n <= ChunkCount(|records|)
  {
    if n == 0 then multiset{}
    else Contribution(s, now, h, records, got, n - 1)
         + (if n - 1 in got then multiset(Missing(s, now, h, Part(records, n - 1))) else multiset{})
  }

  lemma {:induction false} ContributionGrows(s: RoomState, now: int, h: seq<Record>, records: seq<Record>, got: set<nat>, c: nat, n: nat)
    requires n <= ChunkCount(|records|) && c !in got && c < ChunkCount(|records|)
    ensures Contribution(s, now, h, records, got + {c}, n) ==
      Contribution(s, now, h, records, got, n) + if c < n then multiset(Missing(s, now, h, Part(records, c))) else multiset{}
  {
    hide Part, ChunkCount, Missing;
    if n > 0 { ContributionGrows(s, now, h, records, got, c, n - 1); }
  }

  lemma {:induction false} MissingConcat(s: RoomState, now: int, h: seq<Record>, a: seq<Record>, b: seq<Record>)
    ensures Missing(s, now, h, a + b) == Missing(s, now, h, a) + Missing(s, now, h, b)
  {
    FilterConcat((r: Record) => Acceptable(s, now, r) && r.id !in Ids(Unexpired(h, now)), a, b);
  }

  lemma MissingOfNone(s: RoomState, now: int, h: seq<Record>)
    ensures Missing(s, now, h, []) == []
  {
  }

  lemma {:induction false} ContributionOfAll(s: RoomState, now: int, h: seq<Record>, records: seq<Record>, got: set<nat>, n: nat)
    requires n <= ChunkCount(|records|) && forall c: nat :: c < n ==> c in got
    ensures Contribution(s, now, h, records, got, n) == multiset(Missing(s, now, h, Joined(records, n)))
  {
    hide Part, ChunkCount, Missing;
    if n == 0 {
      MissingOfNone(s, now, h);
    } else {
      ContributionOfAll(s, now, h, records, got, n - 1);
      MissingConcat(s, now, h, Joined(records, n - 1), Part(records, n - 1));
    }
  }

  lemma {:induction false} ContributionOfNone(s: RoomState, now: int, h: seq<Record>, records: seq<Record>, n: nat)
    requires n <= ChunkCount(|records|)
    ensures Contribution(s, now, h, records, {}, n) == multiset{}
  {
    if n > 0 { ContributionOfNone(s, now, h, records, n - 1); }
  }

  /** A record of the contribution comes from a handled chunk and was missing. */
  lemma {:induction false} ContributionMembers(s: RoomState, now: int, h: seq<Record>, records: seq<Record>,
                                               got: set<nat>, n: nat, r: Record)
    requires n <= ChunkCount(|records|)
    ensures r in Contribution(s, now, h, records, got, n) <==>
      exists c: nat :: c < n && c in got && r in Missing(s, now, h, Part(records, c))
  {
    hide Missing, Part, ChunkCount;
    if n > 0 {
      ContributionMembers(s, now, h, records, got, n - 1, r);
      var own := Missing(s, now, h, Part(records, n - 1));
      assert r in multiset(own) <==> r in own;
      if c: nat :| c < n && c in got && r in Missing(s, now, h, Part(records, c)) {
        assert c == n - 1 || c < n - 1;
      }
    }
  }

  /** Where the requester's file stands after handling the chunks in got. */
  ghost predicate SyncedTo(s: RoomState, now: int, h0: seq<Record>, records: seq<Record>, got: set<nat>, h: seq<Record>) {
    multiset(Unexpired(h, now)) == multiset(Unexpired(h0, now)) + Contribution(s, now, h0, records, got, ChunkCount(|records|))
  }

  lemma {:induction false} PartsAreDisjoint(records: seq<Record>, c: nat, d: nat, r: Record, x: Record)
    requires UniqueIds(records) && c < ChunkCount(|records|) && d < ChunkCount(|records|) && c != d
    requires r in Part(records, c) && x in Part(records, d) && r.id != ""
    ensures r.id != x.id
  {
    var i :| 0 <= i < |Part(records, c)| && Part(records, c)[i] == r;
    var j :| 0 <= j < |Part(records, d)| && Part(records, d)[j] == x;
    var p, q := c * CHUNK_RECORDS + i, d * CHUNK_RECORDS + j;
    assert records[p] == r && records[q] == x && p != q;
  }

  lemma {:induction false} PartIsUnique(records: seq<Record>, c: nat)
    requires UniqueIds(records) && c < ChunkCount(|records|)
    ensures UniqueIds(Part(records, c))
  {
    var part := Part(records, c);
    assert forall i :: 0 <= i < |part| ==> part[i] == records[c * CHUNK_RECORDS + i];
  }

  lemma {:induction false} MultisetIn(h: seq<Record>, m: multiset<Record>, r: Record)
    requires multiset(h) == m
    ensures r in h <==> r in m
  {
    assert r in h <==> r in multiset(h);
  }

  /** Which IDs of a chunk are already in the synced file. */
  lemma {:induction false} SeenIds(s: RoomState, now: int, h0: seq<Record>, records: seq<Record>, got: set<nat>, h: seq<Record>, c: nat, r: Record)
    requires UniqueIds(records) && c < ChunkCount(|records|) && SyncedTo(s, now, h0, records, got, h)
    requires r in Part(records, c) && Acceptable(s, now, r)
    ensures r.id in Ids(Unexpired(h, now)) <==> r.id in Ids(Unexpired(h0, now)) || c in got
  {
    var n := ChunkCount(|records|);
    var kept, old_ := Unexpired(h, now), Unexpired(h0, now);
    var sum := multiset(old_) + Contribution(s, now, h0, records, got, n);
    var keep := (x: Record) => Acceptable(s, now, x) && x.id !in Ids(old_);
    if r.id in Ids(kept) {
      var x :| x in kept && x.id == r.id;
      MultisetIn(kept, sum, x);
      if x !in old_ {
        assert x in Contribution(s, now, h0, records, got, n);
        ContributionMembers(s, now, h0, records, got, n, x);
        var d: nat :| d < n && d in got && x in Missing(s, now, h0, Part(records, d));
        FilterMembers(keep, Part(records, d));
        if d != c { PartsAreDisjoint(records, c, d, r, x); }
      }
    }
    if r.id in Ids(old_) {
      var x :| x in old_ && x.id == r.id;
      MultisetIn(kept, sum, x);
    } else if c in got {
      FilterMembers(keep, Part(records, c));
      ContributionMembers(s, now, h0, records, got, n, r);
      MultisetIn(kept, sum, r);
    }
  }

  lemma {:induction false} NewOfUnique(s: RoomState, now: int, seen: set<string>, part: seq<Record>)
    requires UniqueIds(part) && "" !in seen
    ensures NewRecords(seen, Filter(AcceptableTo(s, now), part)) == Filter((r: Record) => Acceptable(s, now, r) && r.id !in seen, part)
  {
    if part != [] {
      var front, last := part[..|part| - 1], part[|part| - 1];
      assert part == front + [last];
      NewOfUnique(s, now, seen, front);
      FilterMembers(AcceptableTo(s, now), front);
      if Acceptable(s, now, last) {
        var f := Filter(AcceptableTo(s, now), front);
        assert Filter(AcceptableTo(s, now), part) == f + [last] && (f + [last])[..|f|] == f;
        forall x | x in f ensures x.id != last.id {
          var i :| 0 <= i < |front| && front[i] == x;
          assert part[i] == x && part[|front|] == last;
        }
      }
    }
  }

  lemma {:induction false} FilterSame(p: Record -> bool, q: Record -> bool, part: seq<Record>)
    requires forall r :: r in part ==> p(r) == q(r)
    ensures Filter(p, part) == Filter(q, part)
  {
    if part != [] { FilterSame(p, q, part[..|part| - 1]); }
  }

  /** The records one chunk adds: its missing ones if the chunk is handled for the first time, none otherwise. */
  lemma {:induction false} ChunkAdds(s: RoomState, now: int, h0: seq<Record>, records: seq<Record>, got: set<nat>, h: seq<Record>, c: nat)
    requires UniqueIds(records) && c < ChunkCount(|records|) && SyncedTo(s, now, h0, records, got, h)
    ensures NewRecords(Ids(Unexpired(h, now)), Filter(AcceptableTo(s, now), Part(records, c))) ==
      if c in got then [] else Missing(s, now, h0, Part(records, c))
  {
    var part := Part(records, c);
    var seen := Ids(Unexpired(h, now));
    PartIsUnique(records, c);
    NewOfUnique(s, now, seen, part);
    var p := (r: Record) => Acceptable(s, now, r) && r.id !in seen;
    forall r | r in part && Acceptable(s, now, r) ensures r.id in seen <==> r.id in Ids(Unexpired(h0, now)) || c in got {
      SeenIds(s, now, h0, records, got, h, c, r);
    }
    if c in got {
      FilterNone(p, part);
    } else {
      FilterSame(p, (r: Record) => Acceptable(s, now, r) && r.id !in Ids(Unexpired(h0, now)), part);
    }
  }

  lemma {:induction false} AllLast(s: RoomState, now: int, h0: seq<Record>, part: seq<Record>)
    ensures Unexpired(Missing(s, now, h0, part), now) == Missing(s, now, h0, part)
  {
    var keep := (r: Record) => Acceptable(s, now, r) && r.id !in Ids(Unexpired(h0, now));
    FilterMembers(keep, part);
    FilterAll(LastingAt(now), Missing(s, now, h0, part));
  }

  lemma {:induction false} FilterOfPermutation(keep: Record -> bool, a: seq<Record>, b: seq<Record>)
    requires multiset(a) == multiset(b)
    ensures multiset(Filter(keep, a)) == multiset(Filter(keep, b))
  {
    FilterMultiset(keep, a);
    FilterMultiset(keep, b);
  }

  /** The unexpired view after a merge is the old one plus the new unexpired records. */
  lemma {:induction false} MergedView(h: seq<Record>, incoming: seq<Record>, now: int, h': seq<Record>, added: nat)
    requires Merged(h, incoming, now, h', added)
    ensures multiset(Unexpired(h', now)) ==
      multiset(Unexpired(h, now)) + multiset(Unexpired(NewRecords(Ids(Unexpired(h, now)), incoming), now))
  {
    var kept := Unexpired(h, now);
    var new_ := NewRecords(Ids(kept), incoming);
    if added == 0 {
      assert new_ == [];
    } else {
      FilterOfPermutation(LastingAt(now), kept + new_, h');
      FilterConcat(LastingAt(now), kept, new_);
      FilterFilter(LastingAt(now), LastingAt(now), h);
    }
  }

  lemma {:induction false} ChunkStep(s: RoomState, contact: string, now: int, h0: seq<Record>, records: seq<Record>, requestId: string,
                  got: set<nat>, c: nat, h: seq<Record>, h': seq<Record>, out: Handling)
    requires UniqueIds(records) && c < ChunkCount(|records|) && SyncedTo(s, now, h0, records, got, h)
    requires s.joined && JoinTimeOf(s.members, contact).Some? && requestId != ""
    requires OnChunk(s, contact, Split(records, requestId)[c], now, h, h', out)
    ensures SyncedTo(s, now, h0, records, got + {c}, h')
    ensures out.Handled? && out.requestId == requestId && (out.complete <==> c == ChunkCount(|records|) - 1)
    ensures out.added == if c in got then 0 else |Missing(s, now, h0, Part(records, c))|
  {
    hide Acceptable, Contribution;
    var part := Part(records, c);
    ChunkAdds(s, now, h0, records, got, h, c);
    MergedView(h, Filter(AcceptableTo(s, now), part), now, h', out.added);
    if c in got {
      assert got + {c} == got;
      assert Unexpired([], now) == [];
    } else {
      AllLast(s, now, h0, part);
      ContributionGrows(s, now, h0, records, got, c, ChunkCount(|records|));
    }
  }

  // ---- any order, any repetition ----

  ghost function HandledChunks(order: seq<nat>): set<nat> {
    set c | c in order
  }

  function Total(outs: seq<Handling>): nat {
    if outs == [] then 0
    else Total(outs[..|outs| - 1]) + if outs[|outs| - 1].Handled? then outs[|outs| - 1].added else 0
  }

  /** A run of chunk deliveries: files[k] is the requester's file before the k-th delivery. */
  ghost predicate Deliveries(s: RoomState, contact: string, now: int, records: seq<Record>, requestId: string,
                             order: seq<nat>, files: seq<seq<Record>>, outs: seq<Handling>)
  {
    && |files| == |order| + 1 && |outs| == |order|
    && (forall k :: 0 <= k < |order| ==> order[k] < ChunkCount(|records|))
    && (forall k :: 0 <= k < |order| ==> OnChunk(s, contact, Split(records, requestId)[order[k]], now, files[k], files[k + 1], outs[k]))
  }

  lemma {:induction false} NothingHandled(s: RoomState, now: int, h: seq<Record>, records: seq<Record>)
    ensures SyncedTo(s, now, h, records, {}, h)
  {
    ContributionOfNone(s, now, h, records, ChunkCount(|records|));
  }

  lemma {:induction false} DeliveriesSync(s: RoomState, contact: string, now: int, records: seq<Record>, requestId: string,
                                          order: seq<nat>, files: seq<seq<Record>>, outs: seq<Handling>)
    requires UniqueIds(records) && s.joined && JoinTimeOf(s.members, contact).Some? && requestId != ""
    requires Deliveries(s, contact, now, records, requestId, order, files, outs)
    ensures SyncedTo(s, now, files[0], records, HandledChunks(order), files[|order|])
    ensures Total(outs) == |Contribution(s, now, files[0], records, HandledChunks(order), ChunkCount(|records|))|
  {
    hide Part, ChunkCount, Missing, OnChunk, SyncedTo, Split, Contribution;
    var n := |order|;
    if n == 0 {
      assert HandledChunks(order) == {};
      NothingHandled(s, now, files[0], records);
      ContributionOfNone(s, now, files[0], records, ChunkCount(|records|));
    } else {
      var front, c := order[..n - 1], order[n - 1];
      assert Deliveries(s, contact, now, records, requestId, front, files[..n], outs[..n - 1]);
      DeliveriesSync(s, contact, now, records, requestId, front, files[..n], outs[..n - 1]);
      var got := HandledChunks(front);
      ChunkStep(s, contact, now, files[0], records, requestId, got, c, files[n - 1], files[n], outs[n - 1]);
      assert HandledChunks(order) == got + {c};
      if c in got {
        assert got + {c} == got;
      } else {
        ContributionGrows(s, now, files[0], records, got, c, ChunkCount(|records|));
      }
    }
  }

  /**
   History sync end to end. The responder answers a joined, mutually known
   requester at a common time; the chunks arrive in any order and any number of
   times, each at least once. Then the requester's unexpired history is its old
   one plus exactly the sent records it accepts and did not have, each once,
   and the reported counts add up to their number.
   */
  lemma {:induction false} SyncIsExact(responder: RoomState, theirs: seq<Record>, requester: RoomState, requesterId: string, responderId: string,
                    requestId: string, now: int, order: seq<nat>, files: seq<seq<Record>>, outs: seq<Handling>)
    requires UniqueIds(theirs) && requestId != ""
    requires requester.joined && JoinTimeOf(requester.members, responderId).Some?
    requires responder.joined && JoinTimeOf(responder.members, requesterId).Some?
    requires var r := RequestFor(requester, requestId, now);
      var join := JoinTimeOf(responder.members, requesterId).value;
      var sent := Window(Unexpired(theirs, now), WindowStart(join, r, now), WindowEnd(join, r, now));
      && Deliveries(requester, responderId, now, sent, requestId, order, files, outs)
      && forall c: nat :: c < ChunkCount(|sent|) ==> c in order
    ensures var r := RequestFor(requester, requestId, now);
      var join := JoinTimeOf(responder.members, requesterId).value;
      var sent := Window(Unexpired(theirs, now), WindowStart(join, r, now), WindowEnd(join, r, now));
      && OnRequest(responder, theirs, requesterId, r, now) == Chunks(Split(sent, requestId))
      && multiset(Unexpired(files[|order|], now)) == multiset(Unexpired(files[0], now)) + multiset(Missing(requester, now, files[0], sent))
      && Total(outs) == |Missing(requester, now, files[0], sent)|
  {
    var r := RequestFor(requester, requestId, now);
    var join := JoinTimeOf(responder.members, requesterId).value;
    var since, until := WindowStart(join, r, now), WindowEnd(join, r, now);
    var sent := Window(Unexpired(theirs, now), since, until);
    UniqueAfterFilter(LastingAt(now), theirs);
    UniqueAfterFilter((x: Record) => (since == 0 || x.timestamp >= since) && (until == 0 || x.timestamp <= until), Unexpired(theirs, now));
    DeliveriesSync(requester, responderId, now, sent, requestId, order, files, outs);
    assert forall c: nat :: c < ChunkCount(|sent|) ==> c in HandledChunks(order);
    ContributionOfAll(requester, now, files[0], sent, HandledChunks(order), ChunkCount(|sent|));
    SplitIsFaithful(sent, requestId);
  }

  // ---- what a sync brings, field by field ----

  const WEEK := 7 * 24 * 60 * 60 * 1_000_000_000

  predicate IsMember(s: RoomState, account: string) {
    exists m :: m in s.members && m.account == account
  }

  /** The history still lists an unexpired record under the ID. */
  predicate Lists(h: seq<Record>, id: string, now: int) {
    exists y :: y in h && y.id == id && (y.expiresAt == 0 || now < y.expiresAt)
  }

  /** A record a client may take from anyone: named, from a member, dated within a week and since its own join, unexpired. */
  predicate Wanted(s: RoomState, now: int, x: Record) {
    && x.id != "" && x.sender != "" && IsMember(s, x.sender)
    && x.timestamp != 0 && now - WEEK <= x.timestamp && s.joinedAt <= x.timestamp && x.timestamp <= now
    && (x.expiresAt == 0 || now < x.expiresAt)
  }

  lemma {:induction false} WantedIsAcceptable(s: RoomState, now: int, x: Record)
    ensures Wanted(s, now, x) <==> Acceptable(s, now, x)
  {
    JoinTimeIffMember(s.members, x.sender);
  }

  lemma {:induction false} ListsIsSeen(h: seq<Record>, id: string, now: int)
    requires id != ""
    ensures Lists(h, id, now) <==> id in Ids(Unexpired(h, now))
  {
    FilterMembers(LastingAt(now), h);
  }

  /** Who gets an answer, and to what. */
  lemma {:induction false} AnsweredIff(s: RoomState, h: seq<Record>, contact: string, r: Request, now: int)
    ensures var answer := OnRequest(s, h, contact, r, now);
      && (answer.Chunks? <==> r.roomId == "default" && r.requestId != "" && s.joined && IsMember(s, contact))
      && (answer.MissingRequestId? <==> r.roomId == "default" && r.requestId == "")
  {
    JoinTimeIffMember(s.members, contact);
  }

  function Latest(a: int, b: int, c: int): int {
    if a >= b && a >= c then a else if b >= c then b else c
  }

  lemma {:induction false} JoinedMembers(records: seq<Record>, n: nat, x: Record)
    requires n <= ChunkCount(|records|)
    ensures x in Joined(records, n) <==> exists c: nat :: c < n && x in Part(records, c)
  {
    hide Part, ChunkCount;
    if n > 0 {
      JoinedMembers(records, n - 1, x);
      if c: nat :| c < n && x in Part(records, c) { assert c == n - 1 || c < n - 1; }
    }
  }

  /**
   What any request is answered with: the unexpired records from the latest of
   a week ago, the asking member's join and the start it asked for, up to now
   and the end it asked for; a record dated exactly at the start is sent even
   beyond that end. (A start that is the zero time is none: StaysInsideIff.)
   */
  lemma {:induction false} AnsweredRecords(s: RoomState, h: seq<Record>, me: Member, r: Request, now: int)
    requires OnRequest(s, h, me.account, r, now).Chunks? && Distinct(s.members) && me in s.members
    ensures var chunks := OnRequest(s, h, me.account, r, now).chunks;
      var start := Latest(now - WEEK, me.joinedAt, r.since);
      start > 0 ==>
        forall x :: (exists c: nat :: c < |chunks| && x in chunks[c].records) <==>
          && x in h && (x.expiresAt == 0 || now < x.expiresAt) && start <= x.timestamp
          && (x.timestamp == start || (x.timestamp <= now && (r.until == 0 || x.timestamp <= r.until)))
  {
    hide Part, ChunkCount, Window, Unexpired;
    JoinTimeOfMember(s.members, me);
    var since, until := WindowStart(me.joinedAt, r, now), WindowEnd(me.joinedAt, r, now);
    var sent := Window(Unexpired(h, now), since, until);
    SplitIsFaithful(sent, r.requestId);
    var chunks := Split(sent, r.requestId);
    forall x ensures (exists c: nat :: c < |chunks| && x in chunks[c].records) <==> x in sent {
      JoinedMembers(sent, |chunks|, x);
      assert forall c: nat :: c < |chunks| ==> chunks[c].records == Part(sent, c);
    }
    WindowMembers(h, since, until, now);
  }

  /** Whose chunks are taken; of any others nothing is. */
  lemma {:induction false} HandledIff(s: RoomState, contact: string, c: Chunk, now: int, h: seq<Record>, h': seq<Record>, out: Handling)
    requires OnChunk(s, contact, c, now, h, h', out)
    ensures out.Handled? <==> c.roomId == "default" && c.requestId != "" && s.joined && IsMember(s, contact)
    ensures !out.Handled? ==> h' == h
    ensures out.ChunkWithoutId? <==> c.roomId == "default" && c.requestId == ""
    ensures out.Handled? ==> out.requestId == c.requestId && out.complete == c.last
  {
    JoinTimeIffMember(s.members, contact);
  }

  /**
   Any chunk from anyone, whatever it holds: only wanted records enter, and
   afterwards the history lists every wanted record's ID.
   */
  lemma {:induction false} ChunkLetsIn(s: RoomState, contact: string, c: Chunk, now: int, h: seq<Record>, h': seq<Record>, out: Handling)
    requires OnChunk(s, contact, c, now, h, h', out) && WellKept(h)
    ensures WellKept(h')
    ensures forall x :: x in h' ==> x in h || (x in c.records && Wanted(s, now, x))
    ensures out.Handled? ==> forall x :: x in c.records && Wanted(s, now, x) ==> Lists(h', x.id, now)
    ensures forall x :: x in h && (x.expiresAt == 0 || now < x.expiresAt) ==> x in h'
  {
    if out.Handled? {
      var accepted := Filter(AcceptableTo(s, now), c.records);
      FilterMembers(AcceptableTo(s, now), c.records);
      forall x ensures Wanted(s, now, x) <==> Acceptable(s, now, x) { WantedIsAcceptable(s, now, x); }
      MergeKeepsWellKept(h, accepted, now, h', out.added);
      MergeMeaning(h, accepted, now, h', out.added);
      FilterMembers(LastingAt(now), h);
      forall x | x in c.records && Wanted(s, now, x) ensures Lists(h', x.id, now) {
        MergeListsAll(h, accepted, now, h', out.added, x);
      }
    }
  }

  lemma {:induction false} MergeListsAll(h: seq<Record>, incoming: seq<Record>, now: int, h': seq<Record>, added: nat, x: Record)
    requires WellKept(h) && Merged(h, incoming, now, h', added) && x in incoming && x.id != ""
    requires forall y :: y in incoming ==> Lasting(y, now)
    ensures Lists(h', x.id, now)
  {
    var kept := Unexpired(h, now);
    MergeMeaning(h, incoming, now, h', added);
    FilterMembers(LastingAt(now), h);
    if x.id in Ids(kept) {
      var y :| y in kept && y.id == x.id;
      assert y in h';
    } else {
      NewRecordsFacts(Ids(kept), incoming);
      var new_ := NewRecords(Ids(kept), incoming);
      assert x.id in Ids(incoming) - Ids(kept);
      var y :| y in new_ && y.id == x.id;
      PermutationMembers(kept + new_, h');
      assert y in h';
    }
  }

  /** The records of the responder's history a sync brings: wanted, and not from before the requester's join as the responder knows it. */
  predicate Due(requester: RoomState, join: int, now: int, x: Record) {
    Wanted(requester, now, x) && (join == 0 || join <= x.timestamp)
  }

  lemma {:induction false} DueIsSent(requester: RoomState, theirs: seq<Record>, join: int, requestId: string, now: int, x: Record)
    ensures var r := RequestFor(requester, requestId, now);
      x in Window(Unexpired(theirs, now), WindowStart(join, r, now), WindowEnd(join, r, now)) && Acceptable(requester, now, x)
      <==> x in theirs && Due(requester, join, now, x)
  {
    var r := RequestFor(requester, requestId, now);
    WindowMembers(theirs, WindowStart(join, r, now), WindowEnd(join, r, now), now);
    WantedIsAcceptable(requester, now, x);
  }

  /** The join time is what the members' list says. */
  lemma {:induction false} JoinTimeOfMember(members: seq<Member>, m: Member)
    requires Distinct(members) && m in members
    ensures JoinTimeOf(members, m.account) == Some(m.joinedAt)
  {
    JoinTimeIsKnown(members, m.account);
    KnownIffMember(members, m.account, m.joinedAt);
    assert m == Member(m.account, m.joinedAt);
  }

  ghost predicate AllArrive(requester: RoomState, responderId: string, now: int, chunks: seq<Chunk>,
                            order: seq<nat>, files: seq<seq<Record>>, outs: seq<Handling>)
  {
    && |files| == |order| + 1 && |outs| == |order|
    && (forall k :: 0 <= k < |order| ==>
          order[k] < |chunks| && OnChunk(requester, responderId, chunks[order[k]], now, files[k], files[k + 1], outs[k]))
    && (forall c: nat :: c < |chunks| ==> c in order)
  }

  /**
   What a sync brings. A client asks, a member it asks answers, and the chunks
   arrive in any order and any number of times, each at least once. Then, of
   the responder's history, exactly the records enter that are named, from a
   member the client knows, dated, unexpired, at most a week old, not from the
   future and not from before either side's notion of the client's join, unless
   the client listed the ID before; nothing else enters, nothing unexpired is
   lost, and the counts add up to the number of those that entered.
   */
  lemma {:induction false} SyncBrings(responder: RoomState, theirs: seq<Record>, requester: RoomState, me: Member, responderId: string,
                                      reachable: set<string>, encryptable: set<string>, requestId: string, now: int,
                                      order: seq<nat>, files: seq<seq<Record>>, outs: seq<Handling>)
    requires UniqueIds(theirs) && requestId != "" && requester.joined && Distinct(requester.members) && |files| == |order| + 1
    requires responder.joined && Distinct(responder.members) && me in responder.members
    requires var asking := Ask(requester, me.account, reachable, encryptable, requestId, now);
      && asking.Asked? && responderId in asking.recipients
      && var answer := OnRequest(responder, theirs, me.account, asking.request, now);
         answer.Chunks? ==> AllArrive(requester, responderId, now, answer.chunks, order, files, outs)
    ensures var before, after := files[0], files[|order|];
      && (forall x :: x in theirs && Due(requester, me.joinedAt, now, x) && !Lists(before, x.id, now) ==> x in after)
      && (forall x :: x in after && (x.expiresAt == 0 || now < x.expiresAt) && x !in before ==>
            x in theirs && Due(requester, me.joinedAt, now, x) && !Lists(before, x.id, now))
      && (forall x :: x in before && (x.expiresAt == 0 || now < x.expiresAt) ==> x in after)
      && Total(outs) == |set x | x in theirs && Due(requester, me.joinedAt, now, x) && !Lists(before, x.id, now)|
  {
    hide OnChunk, Split, Due, Lists, Acceptable, Window, WindowStart, WindowEnd, Unexpired;
    var r := RequestFor(requester, requestId, now);
    var before, after := files[0], files[|order|];
    AsksReachableMembers(requester, me.account, reachable, encryptable, requestId, now);
    JoinTimeOfMember(responder.members, me);
    var sent := Sent(requester, theirs, me.joinedAt, requestId, now);
    SplitIsFaithful(sent, requestId);
    SyncIsExact(responder, theirs, requester, me.account, responderId, requestId, now, order, files, outs);
    var missing := Missing(requester, now, before, sent);
    MissingAre(requester, theirs, me.joinedAt, requestId, now, before);
    ExactViews(before, after, now, missing);
    DistinctMissing(requester, theirs, me.joinedAt, requestId, now, before);
  }

  function Sent(requester: RoomState, theirs: seq<Record>, join: int, requestId: string, now: int): seq<Record> {
    var r := RequestFor(requester, requestId, now);
    Window(Unexpired(theirs, now), WindowStart(join, r, now), WindowEnd(join, r, now))
  }

  lemma {:induction false} MissingAre(requester: RoomState, theirs: seq<Record>, join: int, requestId: string, now: int, h: seq<Record>)
    ensures forall x :: x in Missing(requester, now, h, Sent(requester, theirs, join, requestId, now)) <==>
      x in theirs && Due(requester, join, now, x) && !Lists(h, x.id, now)
  {
    var sent := Sent(requester, theirs, join, requestId, now);
    FilterMembers((r: Record) => Acceptable(requester, now, r) && r.id !in Ids(Unexpired(h, now)), sent);
    forall x
      ensures x in Missing(requester, now, h, sent) <==> x in theirs && Due(requester, join, now, x) && !Lists(h, x.id, now)
    {
      DueIsSent(requester, theirs, join, requestId, now, x);
      if x.id != "" { ListsIsSeen(h, x.id, now); }
    }
  }

  lemma {:induction false} ExactViews(before: seq<Record>, after: seq<Record>, now: int, missing: seq<Record>)
    requires multiset(Unexpired(after, now)) == multiset(Unexpired(before, now)) + multiset(missing)
    ensures forall x :: x in missing ==> x in after
    ensures forall x :: x in after && Lasting(x, now) && x !in before ==> x in missing
    ensures forall x :: x in before && Lasting(x, now) ==> x in after
  {
    FilterMembers(LastingAt(now), before);
    FilterMembers(LastingAt(now), after);
    forall x ensures x in Unexpired(after, now) <==> x in Unexpired(before, now) || x in missing {
      assert x in Unexpired(after, now) <==> x in multiset(Unexpired(after, now));
    }
  }

  lemma {:induction false} DistinctMissing(requester: RoomState, theirs: seq<Record>, join: int, requestId: string, now: int, h: seq<Record>)
    requires UniqueIds(theirs)
    ensures var missing := Missing(requester, now, h, Sent(requester, theirs, join, requestId, now));
      |missing| == |set x | x in theirs && Due(requester, join, now, x) && !Lists(h, x.id, now)|
  {
    var r := RequestFor(requester, requestId, now);
    var since, until := WindowStart(join, r, now), WindowEnd(join, r, now);
    var sent := Sent(requester, theirs, join, requestId, now);
    var missing := Missing(requester, now, h, sent);
    UniqueAfterFilter(LastingAt(now), theirs);
    UniqueAfterFilter((x: Record) => (since == 0 || x.timestamp >= since) && (until == 0 || x.timestamp <= until), Unexpired(theirs, now));
    UniqueAfterFilter((x: Record) => Acceptable(requester, now, x) && x.id !in Ids(Unexpired(h, now)), sent);
    MissingAre(requester, theirs, join, requestId, now, h);
    forall x | x in missing ensures x.id != "" { assert Due(requester, join, now, x); }
    SizeOfUnique(missing);
    assert (set x | x in theirs && Due(requester, join, now, x) && !Lists(h, x.id, now)) == set x | x in missing;
  }

  lemma {:induction false} SizeOfUnique(h: seq<Record>)
    requires UniqueIds(h) && forall x :: x in h ==> x.id != ""
    ensures |set x | x in h| == |h|
  {
    if h != [] {
      var front, last := h[..|h| - 1], h[|h| - 1];
      assert h == front + [last];
      SizeOfUnique(front);
      assert (set x | x in h) == (set x | x in front) + {last};
      assert last !in front by {
        assert forall i :: 0 <= i < |front| ==> front[i] == h[i] && h[i].id != h[|front|].id;
      }
    }
  }

  lemma {:induction false} UniqueAfterFilter(keep: Record -> bool, h: seq<Record>)
    requires UniqueIds(h)
    ensures UniqueIds(Filter(keep, h))
  {
    if h != [] {
      var front, last := h[..|h| - 1], h[|h| - 1];
      UniqueAfterFilter(keep, front);
      FilterMembers(keep, front);
      var f := Filter(keep, front);
      forall i | 0 <= i < |f| && f[i].id != "" ensures f[i].id != last.id {
        assert f[i] in front;
        var k :| 0 <= k < |front| && front[k] == f[i];
        assert h[k] == f[i] && h[|front|] == last;
      }
    }
  }
}
