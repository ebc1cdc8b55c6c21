/** The history file and the two history handlers as objects. */
module RoomHistoryStore {
  import opened Foundations
  import opened InPlace
  import opened Sorting
  import opened RoomMembers
  import opened RoomStateModel
  import opened RoomHistoryModel
  import opened RoomHistoryProofs
  import opened HistorySyncModel
  import RoomService

  /** sort.Slice: some sorted arrangement of the array's elements. */
  method SortRecords(a: array<Record>)
    modifies a
    ensures SortedPermutation(RecordLess, old(a[..]), a[..])
  {
    var sorted := Sort(RecordLess, a[..]);
    RecordOrder();
    SortSorts(RecordLess, a[..]);
    PermutationMembers(sorted, a[..]);
    forall i | 0 <= i < a.Length { a[i] := sorted[i]; }
    assert a[..] == sorted;
  }

  lemma NoIds()
    ensures Ids([]) == {}
  {
  }

  class HistoryStore {
    var file: seq<Record>

    constructor ()
      ensures file == []
    {
      file := [];
    }

    /** Decodes the file into a fresh array and filters it there. */
    method LoadRoomHistory(now: int) returns (records: seq<Record>)
      ensures records == Unexpired(file, now)
    {
      var stored := file;
      var a := new Record[|stored|](i requires 0 <= i < |stored| => stored[i]);
      assert a[..] == stored;
      var n := FilterInPlace(a, LastingAt(now));
      records := a[..n];
    }

    method CollectIds(records: seq<Record>) returns (seen: set<string>)
      ensures seen == Ids(records)
    {
      seen := {};
      var i := 0;
      while i < |records|
        invariant 0 <= i <= |records|
        invariant seen == Ids(records[..i])
      {
        assert records[..i + 1] == records[..i] + [records[i]];
        if records[i].id != "" {
          seen := seen + {records[i].id};
        }
        i := i + 1;
      }
      assert records[..i] == records;
    }

    /** The loop over the incoming records. */
    method AppendNew(records: seq<Record>, incoming: seq<Record>) returns (all: seq<Record>, added: nat)
      ensures all == records + NewRecords(Ids(records), incoming) && added == |NewRecords(Ids(records), incoming)|
    {
      hide Ids;
      var seen := CollectIds(records);
      ghost var known := seen;
      assert Ids(incoming[..0]) == {} by { NoIds(); }
      added := 0;
      all := records;
      var i := 0;
      while i < |incoming|
        invariant 0 <= i <= |incoming|
        invariant seen == known + Ids(incoming[..i])
        invariant all == records + NewRecords(known, incoming[..i])
        invariant added == |NewRecords(known, incoming[..i])|
      {
        var record := incoming[i];
        assert incoming[..i + 1] == incoming[..i] + [record];
        assert incoming[..i + 1][..i] == incoming[..i];
        IdsOfAppend(incoming[..i], record);
        if record.id != "" && record.id in seen {
          assert seen == known + Ids(incoming[..i + 1]);
        } else {
          if record.id != "" {
            seen := seen + {record.id};
          }
          all := all + [record];
          added := added + 1;
        }
        i := i + 1;
      }
      assert incoming[..i] == incoming;
    }

    method MergeRoomHistory(incoming: seq<Record>, now: int) returns (added: nat)
      modifies this
      ensures Merged(old(file), incoming, now, file, added)
    {
      hide NewRecords, Ids, Unexpired;
      var records := LoadRoomHistory(now);
      var all;
      all, added := AppendNew(records, incoming);
      if added == 0 {
        return;
      }
      var a := new Record[|all|](j requires 0 <= j < |all| => all[j]);
      assert a[..] == all;
      SortRecords(a);
      file := a[..];
    }

    /** Rewrites the file only when something expired. */
    method PurgeExpired(now: int)
      modifies this
      ensures file == Unexpired(old(file), now)
    {
      var kept := LoadRoomHistory(now);
      FilterLength(LastingAt(now), file);
      if |kept| != |file| {
        file := kept;
      }
    }

    method LoadRoomHistoryWindow(since: int, until: int, now: int) returns (window: seq<Record>)
      ensures window == Window(Unexpired(file, now), since, until)
    {
      var records := LoadRoomHistory(now);
      window := [];
      var i := 0;
      while i < |records|
        invariant 0 <= i <= |records|
        invariant window == Window(records[..i], since, until)
      {
        assert records[..i + 1][..i] == records[..i];
        if (since == 0 || records[i].timestamp >= since) && (until == 0 || records[i].timestamp <= until) {
          window := window + [records[i]];
        }
        i := i + 1;
      }
      assert records[..i] == records;
    }
  }

  class HistoryService {
    const rooms: RoomService.Service
    const history: HistoryStore

    constructor (rooms: RoomService.Service, history: HistoryStore)
      ensures this.rooms == rooms && this.history == history
    {
      this.rooms, this.history := rooms, history;
    }

    method HandleRoomHistoryRequest(contact: string, r: Request, now: int) returns (answer: Answer)
      ensures answer == OnRequest(Load(rooms.store.saved), history.file, contact, r, now)
    {
      if r.roomId != ROOM_ID {
        return NoAnswer;
      }
      if r.requestId == "" {
        return MissingRequestId;
      }
      var state := rooms.store.LoadRoomState();
      if !state.joined {
        return NoAnswer;
      }
      var join := rooms.FindJoinTime(state.members, contact);
      if join.None? {
        return NoAnswer;
      }
      var since := now - MAX_AGE;
      if join.value > since {
        since := join.value;
      }
      if r.since > since {
        since := r.since;
      }
      var until := now;
      if r.until != 0 && r.until < until {
        until := r.until;
      }
      if until < since {
        until := since;
      }
      var records := history.LoadRoomHistoryWindow(since, until, now);
      var chunks := SplitRecords(records, r.requestId);
      answer := Chunks(chunks);
    }

    method SplitRecords(records: seq<Record>, requestId: string) returns (chunks: seq<Chunk>)
      ensures chunks == Split(records, requestId)
    {
      if |records| == 0 {
        return [Chunk(ROOM_ID, requestId, [], true)];
      }
      chunks := [];
      var start := 0;
      while start < |records|
        invariant 0 <= start && |chunks| <= ChunkCount(|records|)
        invariant if start < |records| then start == |chunks| * CHUNK_RECORDS else |chunks| == ChunkCount(|records|)
        invariant forall i :: 0 <= i < |chunks| ==> chunks[i] == Split(records, requestId)[i]
        decreases |records| - start
      {
        var end := start + CHUNK_RECORDS;
        if end > |records| {
          end := |records|;
        }
        chunks := chunks + [Chunk(ROOM_ID, requestId, records[start..end], end == |records|)];
        start := start + CHUNK_RECORDS;
      }
    }

    method HandleRoomHistoryChunk(contact: string, c: Chunk, now: int) returns (out: Handling)
      modifies history
      ensures OnChunk(Load(rooms.store.saved), contact, c, now, old(history.file), history.file, out)
    {
      if c.roomId != ROOM_ID {
        return Skipped;
      }
      if c.requestId == "" {
        return ChunkWithoutId;
      }
      var state := rooms.store.LoadRoomState();
      var member := rooms.FindJoinTime(state.members, contact);
      if !state.joined || member.None? {
        return Skipped;
      }
      var records := AcceptRecords(state, c.records, now);
      var added := 0;
      if |records| != 0 {
        added := history.MergeRoomHistory(records, now);
      }
      out := Handled(c.requestId, added, c.last);
    }

    method AcceptRecords(state: RoomState, messages: seq<Record>, now: int) returns (records: seq<Record>)
      ensures records == Filter(AcceptableTo(state, now), messages)
    {
      var allowedSince := now - MAX_AGE;
      if state.joinedAt > allowedSince {
        allowedSince := state.joinedAt;
      }
      records := [];
      var i := 0;
      while i < |messages|
        invariant 0 <= i <= |messages|
        invariant records == Filter(AcceptableTo(state, now), messages[..i])
      {
        assert messages[..i + 1][..i] == messages[..i];
        var m := messages[i];
        var sender := rooms.FindJoinTime(state.members, m.sender);
        if m.id != "" && m.sender != "" && m.timestamp != 0 && allowedSince <= m.timestamp && m.timestamp <= now
           && sender.Some? && (m.expiresAt == 0 || m.expiresAt > now)
        {
          records := records + [m];
        }
        i := i + 1;
      }
      assert messages[..i] == messages;
    }

    /** reachable: the accounts with a contact that loadOutgoingContact finds. */
    method RoomSyncRecipients(members: seq<Member>, reachable: set<string>) returns (targets: seq<string>)
      ensures targets == Recipients(members, rooms.self, reachable)
    {
      targets := [];
      var i := 0;
      while i < |members|
        invariant 0 <= i <= |members|
        invariant targets == Recipients(members[..i], rooms.self, reachable)
      {
        assert members[..i + 1][..i] == members[..i];
        var account := members[i].account;
        if account != "" && account != rooms.self && account in reachable {
          targets := targets + [account];
        }
        i := i + 1;
      }
      assert members[..i] == members;
    }

    /** encryptForContacts: the first contact it fails for ends it. */
    method EncryptForContacts(targets: seq<string>, encryptable: set<string>) returns (ok: bool)
      ensures ok <==> forall a :: a in targets ==> a in encryptable
    {
      var i := 0;
      while i < |targets|
        invariant 0 <= i <= |targets|
        invariant forall a :: a in targets[..i] ==> a in encryptable
      {
        if targets[i] !in encryptable {
          return false;
        }
        assert targets[..i + 1] == targets[..i] + [targets[i]];
        i := i + 1;
      }
      assert targets[..i] == targets;
      return true;
    }

    method RequestDefaultRoomHistory(reachable: set<string>, encryptable: set<string>, requestId: string, now: int) returns (r: Asking)
      ensures r == Ask(Load(rooms.store.saved), rooms.self, reachable, encryptable, requestId, now)
    {
      var state := rooms.store.LoadRoomState();
      if !state.joined {
        return NotJoined;
      }
      var recipients := RoomSyncRecipients(state.members, reachable);
      if |recipients| == 0 {
        return NobodyToAsk;
      }
      var since := now - MAX_AGE;
      if state.joinedAt > since {
        since := state.joinedAt;
      }
      var ok := EncryptForContacts(recipients, encryptable);
      if !ok {
        return NotEncrypted;
      }
      return Asked(Request(ROOM_ID, requestId, since, now), recipients);
    }
  }
}
