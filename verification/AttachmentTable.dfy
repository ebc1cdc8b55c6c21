/** What every reachable table of partial transfers satisfies. */
module AttachmentTable {
  import opened Foundations
  import opened AttachmentModel
  import Names

  function FilledSlots(parts: seq<Option<Bytes>>): set<nat> {
    set i: nat | i < |parts| && parts[i].Some?
  }

  ghost predicate TransferOk(x: Transfer) {
    && 1 <= |x.chunks| <= MAX_CHUNKS
    && x.received == |FilledSlots(x.chunks)|
    && forall i :: 0 <= i < |x.chunks| && x.chunks[i].Some? ==> 1 <= |x.chunks[i].value| <= CHUNK_BYTES
  }

  ghost predicate TableOk(t: Table) {
    && |t| <= MAX_PENDING
    && forall k :: k in t ==> TransferOk(t[k])
  }

  function OpenedBy(openers: map<string, string>, peer: string): set<string> {
    set k | k in openers && openers[k] == peer
  }

  /** Who opened each pending transfer: the peer whose chunk created the entry. */
  function TrackOpeners(openers: map<string, string>, before: Table, after: Table, now: int, peer: string): map<string, string> {
    map k | k in after :: if k in Cleanup(before, now) && k in openers then openers[k] else peer
  }

  ghost predicate OpenersOk(t: Table, openers: map<string, string>) {
    && openers.Keys == t.Keys
    && (forall k :: k in t ==> openers[k] + ":" <= k)
    && (forall peer :: |OpenedBy(openers, peer)| <= MAX_PENDING_PER_PEER)
  }

  lemma {:induction false} FillKeepsCount(x: Transfer, i: nat, data: Bytes, now: int)
    requires i < |x.chunks| && TransferOk(x) && 1 <= |data| <= CHUNK_BYTES
    ensures TransferOk(Fill(x, i, data, now))
  {
    var y := Fill(x, i, data, now);
    if x.chunks[i].None? {
      assert FilledSlots(y.chunks) == FilledSlots(x.chunks) + {i};
    }
  }

  lemma {:induction false} OpenedIsOk(c: Chunk, now: int)
    requires MetadataOk(c)
    ensures TransferOk(Opened(c, now)) && SameTransfer(Opened(c, now), c)
  {
    assert FilledSlots(Opened(c, now).chunks) == {};
  }

  lemma {:induction false} JoinIsTotal(parts: seq<Option<Bytes>>)
    ensures Join(parts).Some? <==> forall i :: 0 <= i < |parts| ==> parts[i].Some?
  {
    if parts != [] {
      JoinIsTotal(parts[..|parts| - 1]);
      forall i | 0 <= i < |parts| - 1 ensures parts[i] == parts[..|parts| - 1][i] {}
    }
  }

  /** The counter reaches the chunk count exactly when every slot is filled. */
  lemma {:induction false} CompleteIffJoins(x: Transfer)
    requires TransferOk(x)
    ensures x.received == |x.chunks| <==> Join(x.chunks).Some?
  {
    JoinIsTotal(x.chunks);
    SubsetSize(FilledSlots(x.chunks), Upto(|x.chunks|));
    if x.received == |x.chunks| {
      forall i | 0 <= i < |x.chunks| ensures x.chunks[i].Some? {
        assert i in Upto(|x.chunks|);
        assert i in FilledSlots(x.chunks);
      }
    }
    if Join(x.chunks).Some? {
      assert FilledSlots(x.chunks) == Upto(|x.chunks|);
    }
  }

  lemma {:induction false} CleanupIsOk(t: Table, now: int)
    requires TableOk(t)
    ensures TableOk(Cleanup(t, now))
  {
    SubsetSize(Cleanup(t, now).Keys, t.Keys);
  }

  lemma {:induction false} RemoveSize(t: Table, key: string)
    ensures |t - {key}| <= |t|
  {
    SubsetSize((t - {key}).Keys, t.Keys);
  }

  /** Where a chunk passes every check but the final ones: the transfer it goes to. */
  predicate Placed(t: Table, peer: string, chunk: Option<Chunk>, now: int) {
    && Refusal(chunk) == None
    && var kept := Cleanup(t, now);
       var key := Key(peer, chunk.value.id);
       if key in kept then SameTransfer(kept[key], chunk.value)
       else |kept| < MAX_PENDING && |PendingFor(kept, peer)| < MAX_PENDING_PER_PEER
  }

  function Target(t: Table, peer: string, c: Chunk, now: int): Transfer
    requires MetadataOk(c)
  {
    if Key(peer, c.id) in Cleanup(t, now) then Cleanup(t, now)[Key(peer, c.id)] else Opened(c, now)
  }

  /** A chunk either lands in its transfer or changes nothing beyond the sweep and a mismatching entry's removal. */
  lemma {:induction false} HandleCases(t: Table, peer: string, chunk: Option<Chunk>, now: int, saved: bool)
    ensures var kept := Cleanup(t, now);
      var r := HandleChunk(t, peer, chunk, now, saved);
      if Placed(t, peer, chunk, now)
      then var c := chunk.value;
        && SameTransfer(Target(t, peer, c, now), c)
        && r == Finish(kept, Key(peer, c.id), Fill(Target(t, peer, c, now), c.index, c.data.value, now), saved)
      else
        && r.1.Rejected? && r.1.error !in {MissingChunks, SizeMismatch, SaveFailed}
        && (r.0 == kept || (chunk.Some? && r.0 == kept - {Key(peer, chunk.value.id)}))
  {
    if chunk.Some? && MetadataOk(chunk.value) {
      OpenedIsOk(chunk.value, now);
    }
  }

  lemma {:induction false} TableStaysOk(t: Table, key: string, x: Transfer, after: Table)
    requires TableOk(t) && TransferOk(x) && (key in t || |t| < MAX_PENDING)
    requires after == t[key := x] || after == t - {key}
    ensures TableOk(after)
  {
    if after == t[key := x] { PutSize(t, key, x); } else { RemoveSize(t, key); }
  }

  lemma FinishShape(t: Table, key: string, x: Transfer, saved: bool)
    ensures var r := Finish(t, key, x, saved);
      && (r.0 == t[key := x] || r.0 == t - {key})
      && ((x.received == |x.chunks| ==> Join(x.chunks).Some?) ==> r.1 != Rejected(MissingChunks))
  {
  }

  /**
   One chunk keeps the table in order: the counter counts filled slots, slots
   hold 1 to 8192 bytes and at most 128 transfers are pending. So the error
   for missing chunks is never reported.
   */
  lemma {:induction false} HandleKeepsTable(t: Table, peer: string, chunk: Option<Chunk>, now: int, saved: bool)
    requires TableOk(t)
    ensures TableOk(HandleChunk(t, peer, chunk, now, saved).0)
    ensures HandleChunk(t, peer, chunk, now, saved).1 != Rejected(MissingChunks)
  {
    var kept := Cleanup(t, now);
    CleanupIsOk(t, now);
    HandleCases(t, peer, chunk, now, saved);
    if Placed(t, peer, chunk, now) {
      var c := chunk.value;
      OpenedIsOk(c, now);
      FillKeepsCount(Target(t, peer, c, now), c.index, c.data.value, now);
      var x := Fill(Target(t, peer, c, now), c.index, c.data.value, now);
      CompleteIffJoins(x);
      FinishShape(kept, Key(peer, c.id), x, saved);
      TableStaysOk(kept, Key(peer, c.id), x, Finish(kept, Key(peer, c.id), x, saved).0);
    } else if chunk.Some? {
      RemoveSize(kept, Key(peer, chunk.value.id));
    }
  }

  lemma {:induction false} OpenersSurvive(t: Table, openers: map<string, string>, after: Table, now: int, peer: string)
    requires OpenersOk(t, openers) && after.Keys <= Cleanup(t, now).Keys
    ensures OpenersOk(after, TrackOpeners(openers, t, after, now, peer))
  {
    var o := TrackOpeners(openers, t, after, now, peer);
    forall p ensures |OpenedBy(o, p)| <= MAX_PENDING_PER_PEER {
      SubsetSize(OpenedBy(o, p), OpenedBy(openers, p));
    }
  }

  lemma {:induction false} OpenersGrow(t: Table, openers: map<string, string>, after: Table, now: int, peer: string, key: string)
    requires OpenersOk(t, openers) && key !in Cleanup(t, now) && after.Keys == Cleanup(t, now).Keys + {key}
    requires peer + ":" <= key && |PendingFor(Cleanup(t, now), peer)| < MAX_PENDING_PER_PEER
    ensures OpenersOk(after, TrackOpeners(openers, t, after, now, peer))
  {
    var kept := Cleanup(t, now);
    var o := TrackOpeners(openers, t, after, now, peer);
    forall p ensures |OpenedBy(o, p)| <= MAX_PENDING_PER_PEER {
      if p == peer {
        assert OpenedBy(o, p) - {key} <= PendingFor(kept, peer);
        SubsetSize(OpenedBy(o, p) - {key}, PendingFor(kept, peer));
      } else {
        assert OpenedBy(o, p) <= OpenedBy(openers, p);
        SubsetSize(OpenedBy(o, p), OpenedBy(openers, p));
      }
    }
  }

  /** No peer ever has more than 16 transfers it opened itself. */
  lemma {:induction false} HandleKeepsOpeners(t: Table, openers: map<string, string>, peer: string, chunk: Option<Chunk>, now: int, saved: bool)
    requires OpenersOk(t, openers)
    ensures var after := HandleChunk(t, peer, chunk, now, saved).0;
      OpenersOk(after, TrackOpeners(openers, t, after, now, peer))
  {
    var kept := Cleanup(t, now);
    var after := HandleChunk(t, peer, chunk, now, saved).0;
    HandleCases(t, peer, chunk, now, saved);
    if Placed(t, peer, chunk, now) {
      var c := chunk.value;
      FinishShape(kept, Key(peer, c.id), Fill(Target(t, peer, c, now), c.index, c.data.value, now), saved);
    }
    if after.Keys <= kept.Keys {
      OpenersSurvive(t, openers, after, now, peer);
    } else {
      OpenersGrow(t, openers, after, now, peer, Key(peer, chunk.value.id));
    }
  }

  // ---- whole runs ----

  function OpenersAfter(run: seq<Delivery>): map<string, string> {
    if run == [] then map[]
    else
      var front, d := run[..|run| - 1], run[|run| - 1];
      var s := ReceiveAll(Inbox({}, map[]), front);
      if IsDuplicate(s.seen, d.envelope) || d.payload.OtherPayload? then OpenersAfter(front)
      else TrackOpeners(OpenersAfter(front), s.pending, Receive(s, d).0.pending, d.now, d.peer)
  }

  /** Assembler invariant: every run from an empty inbox, whatever peers send. */
  lemma {:induction false} ReachableTablesAreOk(run: seq<Delivery>)
    ensures TableOk(ReceiveAll(Inbox({}, map[]), run).pending)
    ensures OpenersOk(ReceiveAll(Inbox({}, map[]), run).pending, OpenersAfter(run))
  {
    if run == [] {
      assert forall p :: OpenedBy(map[], p) == {};
    } else {
      var front, d := run[..|run| - 1], run[|run| - 1];
      ReachableTablesAreOk(front);
      var s := ReceiveAll(Inbox({}, map[]), front);
      if d.payload.AttachmentChunk? {
        HandleKeepsTable(s.pending, d.peer, d.payload.chunk, d.now, d.saved);
        HandleKeepsOpeners(s.pending, OpenersAfter(front), d.peer, d.payload.chunk, d.now, d.saved);
      }
    }
  }

  /** In no run does a delivery report that the transfer is missing chunks. */
  lemma {:induction false} MissingChunksUnreachable(run: seq<Delivery>, next: Delivery)
    ensures Receive(ReceiveAll(Inbox({}, map[]), run), next).1 != Handled(Rejected(MissingChunks))
  {
    var s := ReceiveAll(Inbox({}, map[]), run);
    ReachableTablesAreOk(run);
    if next.payload.AttachmentChunk? {
      HandleKeepsTable(s.pending, next.peer, next.payload.chunk, next.now, next.saved);
    }
  }

  // ---- what one chunk does, field by field ----

  const FIFTEEN_MINUTES := 15 * 60 * 1_000_000_000

  /** The transfers touched within the last 15 minutes. */
  function Recent(t: Table, now: int): Table {
    map k | k in t && now <= t[k].updatedAt + FIFTEEN_MINUTES :: t[k]
  }

  lemma RecentIsKept(t: Table, now: int)
    ensures Recent(t, now) == Cleanup(t, now)
  {
  }

  /** A chunk as the receiver demands it. */
  predicate Sendable(c: Chunk) {
    && c.kind in {"photo", "voice", "file"} && c.id != "" && c.filename != ""
    && 1 <= c.totalSize <= 50 * 1024 * 1024 && 0 <= c.index < c.count <= 6401
    && c.data.Some? && 1 <= |c.data.value| <= 8192
  }

  lemma SendableIff(chunk: Option<Chunk>)
    ensures Refusal(chunk) == None <==> chunk.Some? && Sendable(chunk.value)
  {
  }

  /** The pending transfer is about another file than the chunk. */
  predicate Differs(x: Transfer, c: Chunk) {
    x.kind != c.kind || |x.chunks| != c.count || x.totalSize != c.totalSize || x.filename != Names.Sanitize(c.filename)
  }

  predicate HasRoom(t: Table, peer: string) {
    |t| < 128 && |set k | k in t && peer + ":" <= k| < 16
  }

  /** The transfer after a chunk: touched now, about the chunk's file, with the chunk in its slot unless that was filled before, and all else as before. */
  ghost predicate Holds(after: Transfer, before: Option<Transfer>, c: Chunk, now: int)
    requires Sendable(c)
  {
    && after.updatedAt == now && !Differs(after, c) && c.index < |after.chunks|
    && (before.Some? ==> after.mime == before.value.mime && |before.value.chunks| == |after.chunks|)
    && (before.None? ==> after.mime == c.mime)
    && forall k :: 0 <= k < |after.chunks| ==>
         after.chunks[k] ==
           if before.Some? && k < |before.value.chunks| && before.value.chunks[k].Some? then before.value.chunks[k]
           else if k == c.index then c.data else None
  }

  lemma FinishAnswers(t: Table, key: string, x: Transfer, saved: bool)
    ensures var (after, out) := Finish(t, key, x, saved);
      && (after == t[key := x] || after == t - {key})
      && (out.Rejected? ==> out.error in {MissingChunks, SizeMismatch, SaveFailed})
      && (out == Waiting ==> after == t[key := x])
  {
  }

  lemma HandleIsAdmit(t: Table, peer: string, c: Chunk, now: int, saved: bool)
    requires Sendable(c)
    ensures MetadataOk(c) && HandleChunk(t, peer, Some(c), now, saved) == Admit(Recent(t, now), peer, c, c.data.value, now, saved)
  {
    RecentIsKept(t, now);
  }

  lemma {:induction false} FilledHolds(before: Option<Transfer>, x: Transfer, c: Chunk, now: int)
    requires Sendable(c) && MetadataOk(c) && x == (if before.Some? then before.value else Opened(c, now)) && !Differs(x, c)
    ensures Holds(Fill(x, c.index, c.data.value, now), before, c, now)
  {
  }

  lemma {:induction false} AdmitMeaning(t: Table, peer: string, c: Chunk, now: int, saved: bool)
    requires Sendable(c) && MetadataOk(c)
    ensures var (after, out) := Admit(t, peer, c, c.data.value, now, saved);
      var key := peer + ":" + c.id;
      && (forall k :: k != key ==> (k in after <==> k in t) && (k in t ==> after[k] == t[k]))
      && (out == Rejected(TooManyPending) <==> key !in t && |t| >= 128)
      && (out == Rejected(TooManyPending) || out == Rejected(TooManyPendingForPeer) <==> key !in t && !HasRoom(t, peer))
      && (out == Rejected(Mismatch) <==> key in t && Differs(t[key], c))
      && (out == Rejected(Mismatch) ==> key !in after)
      && (out == Rejected(TooManyPending) || out == Rejected(TooManyPendingForPeer) ==> after == t)
      && (out == Waiting ==> key in after && Holds(after[key], if key in t then Some(t[key]) else None, c, now))
  {
    hide Finish, Holds, Fill, IsKind;
    var key := Key(peer, c.id);
    assert PendingFor(t, peer) == set k | k in t && peer + ":" <= k;
    var x := if key in t then t[key] else Opened(c, now);
    OpenedIsOk(c, now);
    if SameTransfer(x, c) {
      FinishAnswers(t, key, Fill(x, c.index, c.data.value, now), saved);
      FilledHolds(if key in t then Some(t[key]) else None, x, c, now);
    }
  }

  /**
   A chunk that is not sendable changes nothing; a transfer untouched for 15
   minutes is gone; a chunk that would open a transfer is refused exactly if
   128 are pending or 16 under its peer's prefix; one that differs from the
   pending transfer removes it; any other fills its slot if that is empty.
   */
  lemma {:induction false} ChunkMeaning(t: Table, peer: string, chunk: Option<Chunk>, now: int, saved: bool)
    ensures var (after, out) := HandleChunk(t, peer, chunk, now, saved);
      var recent := Recent(t, now);
      && (chunk.None? || !Sendable(chunk.value) ==> after == recent && out.Rejected?)
      && (chunk.Some? && Sendable(chunk.value) ==>
            var key, c := peer + ":" + chunk.value.id, chunk.value;
            && (forall k :: k != key ==> (k in after <==> k in recent) && (k in recent ==> after[k] == recent[k]))
            && (out == Rejected(TooManyPending) <==> key !in recent && |recent| >= 128)
            && (out == Rejected(TooManyPending) || out == Rejected(TooManyPendingForPeer) <==> key !in recent && !HasRoom(recent, peer))
            && (out == Rejected(Mismatch) <==> key in recent && Differs(recent[key], c))
            && (out == Rejected(Mismatch) ==> key !in after)
            && (out == Rejected(TooManyPending) || out == Rejected(TooManyPendingForPeer) ==> after == recent)
            && (out == Waiting ==> key in after && Holds(after[key], if key in recent then Some(recent[key]) else None, c, now)))
  {
    hide Refusal, Admit, Sendable, Holds, Differs, HasRoom, Recent, Cleanup;
    RecentIsKept(t, now);
    SendableIff(chunk);
    if chunk.Some? && Sendable(chunk.value) {
      HandleIsAdmit(t, peer, chunk.value, now, saved);
      AdmitMeaning(Recent(t, now), peer, chunk.value, now, saved);
    }
  }

  /** A transfer that is filled is reported, with all its parts in order, exactly if it has the announced size and can be written. */
  lemma {:induction false} FullTransferMeaning(t: Table, key: string, x: Transfer, saved: bool)
    requires TransferOk(x) && forall k :: 0 <= k < |x.chunks| ==> x.chunks[k].Some?
    ensures var (after, out) := Finish(t, key, x, saved);
      && Join(x.chunks).Some?
      && (out.Completed? <==> (x.totalSize <= 0 || |Join(x.chunks).value| == x.totalSize) && saved)
      && (out.Completed? ==> out.file == Join(x.chunks).value && out.kind == x.kind && out.mime == x.mime && after == t - {key})
      && (!out.Completed? ==> after == t[key := x])
  {
    JoinIsTotal(x.chunks);
    CompleteIffJoins(x);
  }
}
