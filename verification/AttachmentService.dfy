/** The mutable side of attachment transfer: chunker loop, table of partial files, seen set. */
module AttachmentService {
  import opened Foundations
  import opened AttachmentModel
  import opened AttachmentTable
  import Names

  datatype ChunkingError = FileTooLarge | TooManyChunks

  datatype Chunking = Chunked(chunks: seq<Chunk>) | NotChunked(error: ChunkingError)

  /** attachmentID is the fresh UUID of the transfer. */
  method BuildAttachmentChunks(kind: string, filename: string, mime: string, file: Bytes, attachmentID: string) returns (r: Chunking)
    ensures r.Chunked? <==> |file| <= MAX_FILE_BYTES
    ensures r.Chunked? ==> |r.chunks| == ChunkCount(file)
    ensures r.Chunked? ==> forall i :: 0 <= i < |r.chunks| ==> r.chunks[i] == ChunkOf(kind, attachmentID, filename, mime, file, i)
  {
    hide Names.Sanitize;
    if |file| > MAX_FILE_BYTES {
      return NotChunked(FileTooLarge);
    }
    var chunkCount := (|file| + CHUNK_BYTES - 1) / CHUNK_BYTES;
    if chunkCount == 0 {
      chunkCount := 1;
    }
    if chunkCount > MAX_CHUNKS {
      return NotChunked(TooManyChunks);
    }
    var chunks := [];
    var chunkIndex := 0;
    while chunkIndex < chunkCount
      invariant 0 <= chunkIndex <= chunkCount == ChunkCount(file)
      invariant |chunks| == chunkIndex
      invariant forall i :: 0 <= i < chunkIndex ==> chunks[i] == ChunkOf(kind, attachmentID, filename, mime, file, i)
    {
      var start := chunkIndex * CHUNK_BYTES;
      var end := start + CHUNK_BYTES;
      if end > |file| {
        end := |file|;
      }
      var chunk := Chunk(kind, attachmentID, Names.Sanitize(filename), mime, |file|, chunkIndex, chunkCount, Some(file[start..end]));
      chunks := chunks + [chunk];
      chunkIndex := chunkIndex + 1;
    }
    r := Chunked(chunks);
  }

  method CheckChunk(chunk: Option<Chunk>) returns (refused: Option<ChunkError>)
    ensures refused == Refusal(chunk)
  {
    if chunk.None? {
      return Some(PayloadRequired);
    }
    var c := chunk.value;
    if c.kind != "photo" && c.kind != "voice" && c.kind != "file" {
      return Some(InvalidType);
    }
    if c.id == "" || c.filename == "" || c.totalSize <= 0 || c.totalSize > MAX_FILE_BYTES
       || c.count <= 0 || c.count > MAX_CHUNKS || c.index < 0 || c.index >= c.count
    {
      return Some(InvalidMetadata);
    }
    if c.data.None? {
      return Some(Undecodable);
    }
    if |c.data.value| == 0 || |c.data.value| > CHUNK_BYTES {
      return Some(InvalidSize);
    }
    return None;
  }

  class IncomingAttachment {
    const kind: string
    const filename: string
    const mime: string
    const totalSize: int
    const chunks: array<Option<Bytes>>
    var received: int
    var updatedAt: int

    ghost function View(): Transfer
      reads this, chunks
    {
      Transfer(kind, filename, mime, totalSize, chunks[..], received, updatedAt)
    }

    constructor (c: Chunk, now: int)
      requires MetadataOk(c)
      ensures fresh(chunks)
      ensures View() == Opened(c, now)
    {
      kind, filename, mime, totalSize := c.kind, Names.Sanitize(c.filename), c.mime, c.totalSize;
      chunks := new Option<Bytes>[c.count](_ => None);
      received, updatedAt := 0, now;
      new;
      assert chunks[..] == seq(c.count, _ => None);
    }

    method Fill(index: nat, data: Bytes, now: int)
      requires index < chunks.Length
      modifies this, chunks
      ensures View() == AttachmentModel.Fill(old(View()), index, data, now)
    {
      updatedAt := now;
      if chunks[index].None? {
        chunks[index] := Some(data);
        received := received + 1;
      }
    }
  }

  class IncomingAttachmentAssembler {
    var pending: map<string, IncomingAttachment>

    ghost var Repr: set<object>

    /** No two entries share a transfer or a chunk buffer. */
    ghost predicate Valid()
      reads this, Repr
      ensures Valid() ==> this in Repr
    {
      && this in Repr
      && (forall k :: k in pending ==> pending[k] in Repr && pending[k].chunks in Repr)
      && (forall j, k :: j in pending && k in pending && j != k ==> pending[j] != pending[k] && pending[j].chunks != pending[k].chunks)
    }

    ghost function View(): Table
      requires Valid()
      reads this, Repr
    {
      map k | k in pending :: pending[k].View()
    }

    constructor ()
      ensures Valid() && fresh(Repr) && View() == map[]
    {
      pending := map[];
      Repr := {this};
    }

    method Cleanup(now: int)
      requires Valid()
      modifies this
      ensures Valid() && Repr == old(Repr)
      ensures View() == AttachmentModel.Cleanup(old(View()), now)
    {
      var keys := pending.Keys;
      while keys != {}
        invariant Valid() && Repr == old(Repr)
        invariant keys <= pending.Keys <= old(pending.Keys)
        invariant forall k :: k in pending ==> pending[k] == old(pending[k])
        invariant forall k :: k in old(pending) && k !in keys ==> (k in pending <==> now - old(pending[k].updatedAt) <= TTL)
        decreases keys
      {
        var key :| key in keys;
        keys := keys - {key};
        if now - pending[key].updatedAt > TTL {
          pending := pending - {key};
        }
      }
    }

    method PendingCount(peer: string) returns (count: nat)
      requires Valid()
      ensures count == |PendingFor(View(), peer)|
    {
      count := 0;
      ghost var counted: set<string> := {};
      var prefix := peer + ":";
      var keys := pending.Keys;
      while keys != {}
        invariant keys <= pending.Keys
        invariant counted == set k | k in pending && k !in keys && prefix <= k
        invariant count == |counted|
        decreases keys
      {
        var key :| key in keys;
        keys := keys - {key};
        if prefix <= key {
          count := count + 1;
          counted := counted + {key};
        }
      }
      assert counted == PendingFor(View(), peer);
    }

    method Open(key: string, c: Chunk, now: int)
      requires Valid() && MetadataOk(c) && key !in pending
      modifies this
      ensures Valid() && fresh(Repr - old(Repr))
      ensures key in pending && fresh(pending[key]) && fresh(pending[key].chunks)
      ensures View() == old(View())[key := Opened(c, now)]
    {
      hide Names.Sanitize, Opened;
      var transfer := new IncomingAttachment(c, now);
      pending := pending[key := transfer];
      Repr := Repr + {transfer, transfer.chunks};
    }

    method Store(key: string, index: nat, data: Bytes, now: int)
      requires Valid() && key in pending && index < pending[key].chunks.Length
      modifies pending[key], pending[key].chunks
      ensures Valid()
      ensures View() == old(View())[key := AttachmentModel.Fill(old(View())[key], index, data, now)]
    {
      hide AttachmentModel.Fill;
      var current := pending[key];
      current.Fill(index, data, now);
      forall k | k in pending && k != key ensures pending[k].View() == old(pending[k].View()) {
        assert pending[k] != current && pending[k].chunks != current.chunks;
      }
    }

    method Assemble(key: string) returns (assembled: Option<Bytes>)
      requires Valid() && key in pending
      ensures assembled == Join(View()[key].chunks)
    {
      var parts := pending[key].chunks;
      var file: Bytes := [];
      var i := 0;
      while i < parts.Length
        invariant 0 <= i <= parts.Length
        invariant Join(parts[..i]) == Some(file)
      {
        assert parts[..i + 1][..i] == parts[..i];
        if parts[i].None? {
          JoinIsTotal(parts[..]);
          assert parts[..][i].None?;
          return None;
        }
        file := file + parts[i].value;
        i := i + 1;
      }
      assert parts[..i] == parts[..];
      return Some(file);
    }

    /** saveWorks says whether the store can write a finished file. */
    method HandleChunk(peer: string, chunk: Option<Chunk>, now: int, saveWorks: bool) returns (out: Outcome)
      requires Valid()
      modifies Repr
      ensures Valid() && fresh(Repr - old(Repr))
      ensures (View(), out) == AttachmentModel.HandleChunk(old(View()), peer, chunk, now, saveWorks)
    {
      Cleanup(now);
      var refused := CheckChunk(chunk);
      if refused.Some? {
        return Rejected(refused.value);
      }
      out := Admit(peer, chunk.value, chunk.value.data.value, now, saveWorks);
    }

    method Admit(peer: string, c: Chunk, data: Bytes, now: int, saveWorks: bool) returns (out: Outcome)
      requires Valid() && MetadataOk(c)
      modifies Repr
      ensures Valid() && fresh(Repr - old(Repr))
      ensures (View(), out) == AttachmentModel.Admit(old(View()), peer, c, data, now, saveWorks)
    {
      hide AttachmentModel.Deliver, Opened;
      var key := Key(peer, c.id);
      if key !in pending {
        assert View().Keys == pending.Keys;
        if |pending| >= MAX_PENDING {
          return Rejected(TooManyPending);
        }
        var count := PendingCount(peer);
        if count >= MAX_PENDING_PER_PEER {
          return Rejected(TooManyPendingForPeer);
        }
        Open(key, c, now);
      }
      ghost var t := View();
      out := Deliver(key, c, data, now, saveWorks);
      DeliverIsAdmit(old(View()), t, peer, c, data, now, saveWorks);
    }

    method Deliver(key: string, c: Chunk, data: Bytes, now: int, saveWorks: bool) returns (out: Outcome)
      requires Valid() && key in pending && MetadataOk(c)
      modifies this, pending[key], pending[key].chunks
      ensures Valid() && Repr == old(Repr)
      ensures (View(), out) == AttachmentModel.Deliver(old(View()), key, old(View())[key], c, data, now, saveWorks)
    {
      hide AttachmentModel.Finish, AttachmentModel.Fill, Names.Sanitize;
      var current := pending[key];
      if current.kind != c.kind || current.chunks.Length != c.count || current.totalSize != c.totalSize
         || current.filename != Names.Sanitize(c.filename)
      {
        pending := pending - {key};
        assert View() == old(View()) - {key};
        return Rejected(Mismatch);
      }
      ghost var t := View();
      Store(key, c.index, data, now);
      ghost var x := View()[key];
      out := Finish(key, saveWorks);
      FinishOverwrites(t, key, x, x, saveWorks);
    }

    method Finish(key: string, saveWorks: bool) returns (out: Outcome)
      requires Valid() && key in pending
      modifies this
      ensures Valid() && Repr == old(Repr)
      ensures (View(), out) == AttachmentModel.Finish(old(View()), key, old(View())[key], saveWorks)
    {
      var current := pending[key];
      ghost var t := View();
      assert t[key := t[key]] == t;
      if current.received != current.chunks.Length {
        return Waiting;
      }
      var assembled := Assemble(key);
      if assembled.None? {
        return Rejected(MissingChunks);
      }
      if current.totalSize > 0 && |assembled.value| != current.totalSize {
        return Rejected(SizeMismatch);
      }
      if !saveWorks {
        return Rejected(SaveFailed);
      }
      pending := pending - {key};
      assert View() == t - {key};
      out := Completed(current.kind, Names.Sanitize(current.filename), current.mime, assembled.value);
    }
  }

  lemma {:induction false} DeliverIsAdmit(t: Table, after: Table, peer: string, c: Chunk, data: Bytes, now: int, saved: bool)
    requires MetadataOk(c)
    requires var key := Key(peer, c.id);
      if key in t then after == t
      else |t| < MAX_PENDING && |PendingFor(t, peer)| < MAX_PENDING_PER_PEER && after == t[key := Opened(c, now)]
    ensures var key := Key(peer, c.id);
      AttachmentModel.Deliver(after, key, after[key], c, data, now, saved) == AttachmentModel.Admit(t, peer, c, data, now, saved)
  {
    var key := Key(peer, c.id);
    if key !in t {
      OpenedIsOk(c, now);
      FinishOverwrites(t, key, Opened(c, now), AttachmentModel.Fill(Opened(c, now), c.index, data, now), saved);
    }
  }

  lemma {:induction false} FinishOverwrites(t: Table, key: string, y: Transfer, x: Transfer, saved: bool)
    ensures AttachmentModel.Finish(t[key := y], key, x, saved) == AttachmentModel.Finish(t, key, x, saved)
  {
    assert t[key := y][key := x] == t[key := x];
    assert t[key := y] - {key} == t - {key};
  }

  lemma ReceiveIs(s: Inbox, d: Delivery, t: Table, out: Outcome)
    requires !IsDuplicate(s.seen, d.envelope) && d.payload.AttachmentChunk?
    requires (t, out) == AttachmentModel.HandleChunk(s.pending, d.peer, d.payload.chunk, d.now, d.saved)
    ensures Receive(s, d) == (Inbox(MarkSeen(s.seen, d.envelope), t), Handled(out))
  {
  }

  /** The client service: the stored set of seen envelope IDs in front of the assembler. */
  class Service {
    var seen: set<string>
    const assembler: IncomingAttachmentAssembler

    ghost predicate Valid()
      reads this, assembler, assembler.Repr
    {
      assembler.Valid() && this !in assembler.Repr
    }

    ghost function View(): Inbox
      requires Valid()
      reads this, assembler, assembler.Repr
    {
      Inbox(seen, assembler.View())
    }

    constructor ()
      ensures Valid() && fresh(assembler.Repr) && View() == Inbox({}, map[])
    {
      seen := {};
      assembler := new IncomingAttachmentAssembler();
    }

    method MarkIncomingEnvelopeSeen(envelope: string) returns (duplicate: bool)
      modifies this
      ensures duplicate == IsDuplicate(old(seen), envelope)
      ensures seen == if duplicate then old(seen) else MarkSeen(old(seen), envelope)
    {
      if envelope != "" && envelope in seen {
        return true;
      }
      if envelope != "" {
        seen := seen + {envelope};
      }
      return false;
    }

    method HandleIncoming(d: Delivery) returns (reply: Reply)
      requires Valid()
      modifies this, assembler.Repr
      ensures Valid() && fresh(assembler.Repr - old(assembler.Repr))
      ensures (View(), reply) == Receive(old(View()), d)
    {
      var duplicate := MarkIncomingEnvelopeSeen(d.envelope);
      if duplicate {
        return Duplicate;
      }
      match d.payload {
        case OtherPayload =>
          reply := NotAnAttachment;
        case AttachmentChunk(chunk) =>
          var out := assembler.HandleChunk(d.peer, chunk, d.now, d.saved);
          reply := Handled(out);
          ReceiveIs(old(View()), d, assembler.View(), out);
      }
    }
  }
}
