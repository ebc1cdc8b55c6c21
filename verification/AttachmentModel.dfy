/**
 Attachment transfer: the sender's chunker and the receiver's table of
 partial transfers, as functions on values. The class in AttachmentService
 implements the table; AttachmentTable and AttachmentTransfer state what it
 keeps and what a transfer achieves.
 */
module AttachmentModel {
  import opened Foundations
  import Names

  const CHUNK_BYTES := 8 * 1024
  const MAX_FILE_BYTES := 50 * 1024 * 1024
  const MAX_CHUNKS := MAX_FILE_BYTES / CHUNK_BYTES + 1
  const TTL := 15 * 60 * 1_000_000_000
  const MAX_PENDING := 128
  const MAX_PENDING_PER_PEER := 16

  /** data is None where the base64 text does not decode. */
  datatype Chunk = Chunk(kind: string, id: string, filename: string, mime: string,
                         totalSize: int, index: int, count: int, data: Option<Bytes>)

  /** One partial file; the transfer's chunk count is |chunks|. */
  datatype Transfer = Transfer(kind: string, filename: string, mime: string, totalSize: int,
                               chunks: seq<Option<Bytes>>, received: int, updatedAt: int)

  type Table = map<string, Transfer>

  datatype ChunkError =
    | PayloadRequired | InvalidType | InvalidMetadata | Undecodable | InvalidSize
    | TooManyPending | TooManyPendingForPeer | Mismatch | MissingChunks | SizeMismatch | SaveFailed

  datatype Outcome = Rejected(error: ChunkError) | Waiting | Completed(kind: string, filename: string, mime: string, file: Bytes)

  // ---- the sender ----

  predicate IsKind(kind: string) {
    kind == "photo" || kind == "voice" || kind == "file"
  }

  function ChunkCount(file: Bytes): nat {
    if file == [] then 1 else (|file| + CHUNK_BYTES - 1) / CHUNK_BYTES
  }

  function Min(a: int, b: int): int {
    if a < b then a else b
  }

  function Slice(file: Bytes, i: nat): Bytes
    requires i < ChunkCount(file)
  {
    file[i * CHUNK_BYTES..Min((i + 1) * CHUNK_BYTES, |file|)]
  }

  function ChunkOf(kind: string, id: string, filename: string, mime: string, file: Bytes, i: nat): Chunk
    requires i < ChunkCount(file)
  {
    Chunk(kind, id, Names.Sanitize(filename), mime, |file|, i, ChunkCount(file), Some(Slice(file, i)))
  }

  // ---- the receiver's table ----

  function Key(peer: string, id: string): string {
    peer + ":" + id
  }

  function Cleanup(t: Table, now: int): Table {
    map k | k in t && now - t[k].updatedAt <= TTL :: t[k]
  }

  function PendingFor(t: Table, peer: string): set<string> {
    set k | k in t && peer + ":" <= k
  }

  predicate MetadataOk(c: Chunk) {
    && c.id != "" && c.filename != ""
    && 0 < c.totalSize <= MAX_FILE_BYTES
    && 0 < c.count <= MAX_CHUNKS
    && 0 <= c.index < c.count
  }

  function Opened(c: Chunk, now: int): Transfer
    requires MetadataOk(c)
  {
    Transfer(c.kind, Names.Sanitize(c.filename), c.mime, c.totalSize, seq(c.count, _ => None), 0, now)
  }

  predicate SameTransfer(x: Transfer, c: Chunk) {
    x.kind == c.kind && |x.chunks| == c.count && x.totalSize == c.totalSize && x.filename == Names.Sanitize(c.filename)
  }

  function Fill(x: Transfer, i: nat, data: Bytes, now: int): Transfer
    requires i < |x.chunks|
  {
    if x.chunks[i].None?
    then x.(updatedAt := now, chunks := x.chunks[i := Some(data)], received := x.received + 1)
    else x.(updatedAt := now)
  }

  /** The concatenation of the parts, None as soon as one is missing. */
  function Join(parts: seq<Option<Bytes>>): Option<Bytes> {
    if parts == [] then Some([])
    else if Join(parts[..|parts| - 1]).None? || parts[|parts| - 1].None? then None
    else Some(Join(parts[..|parts| - 1]).value + parts[|parts| - 1].value)
  }

  function Finish(t: Table, key: string, x: Transfer, saved: bool): (Table, Outcome) {
    if x.received != |x.chunks| then (t[key := x], Waiting)
    else if Join(x.chunks).None? then (t[key := x], Rejected(MissingChunks))
    else if x.totalSize > 0 && |Join(x.chunks).value| != x.totalSize then (t[key := x], Rejected(SizeMismatch))
    else if !saved then (t[key := x], Rejected(SaveFailed))
    else (t - {key}, Completed(x.kind, Names.Sanitize(x.filename), x.mime, Join(x.chunks).value))
  }

  /** The table's part of the work, for a chunk whose own fields are in order. */
  function Admit(t: Table, peer: string, c: Chunk, data: Bytes, now: int, saved: bool): (Table, Outcome)
    requires MetadataOk(c)
  {
    var key := Key(peer, c.id);
    if key !in t && |t| >= MAX_PENDING then (t, Rejected(TooManyPending))
    else if key !in t && |PendingFor(t, peer)| >= MAX_PENDING_PER_PEER then (t, Rejected(TooManyPendingForPeer))
    else Deliver(t, key, if key in t then t[key] else Opened(c, now), c, data, now, saved)
  }

  function Deliver(t: Table, key: string, x: Transfer, c: Chunk, data: Bytes, now: int, saved: bool): (Table, Outcome)
    requires MetadataOk(c)
  {
    if !SameTransfer(x, c) then (t - {key}, Rejected(Mismatch))
    else Finish(t, key, Fill(x, c.index, data, now), saved)
  }

  /** Why a chunk is turned away on its own fields, if it is. */
  function Refusal(chunk: Option<Chunk>): (refused: Option<ChunkError>)
    ensures refused == None <==>
      && chunk.Some? && IsKind(chunk.value.kind) && MetadataOk(chunk.value)
      && chunk.value.data.Some? && 1 <= |chunk.value.data.value| <= CHUNK_BYTES
  {
    match chunk
    case None => Some(PayloadRequired)
    case Some(c) =>
      if !IsKind(c.kind) then Some(InvalidType)
      else if !MetadataOk(c) then Some(InvalidMetadata)
      else if c.data.None? then Some(Undecodable)
      else if |c.data.value| == 0 || |c.data.value| > CHUNK_BYTES then Some(InvalidSize)
      else None
  }

  /** One chunk arriving from a peer; saved says whether writing a finished file works. */
  function HandleChunk(t: Table, peer: string, chunk: Option<Chunk>, now: int, saved: bool): (Table, Outcome) {
    var refused := Refusal(chunk);
    if refused.Some? then (Cleanup(t, now), Rejected(refused.value))
    else Admit(Cleanup(t, now), peer, chunk.value, chunk.value.data.value, now, saved)
  }

  // ---- the service in front of it: envelope deduplication ----

  /** What an envelope turns out to hold; anything that is not a chunk leaves the table alone, readable or not. */
  datatype Payload = AttachmentChunk(chunk: Option<Chunk>) | OtherPayload

  /** An envelope reaching the client. */
  datatype Delivery = Delivery(envelope: string, peer: string, payload: Payload, now: int, saved: bool)

  datatype Inbox = Inbox(seen: set<string>, pending: Table)

  datatype Reply = Duplicate | NotAnAttachment | Handled(outcome: Outcome)

  function MarkSeen(seen: set<string>, envelope: string): set<string> {
    if envelope == "" then seen else seen + {envelope}
  }

  predicate IsDuplicate(seen: set<string>, envelope: string) {
    envelope != "" && envelope in seen
  }

  function Receive(s: Inbox, d: Delivery): (Inbox, Reply) {
    if IsDuplicate(s.seen, d.envelope) then (s, Duplicate)
    else
      match d.payload
      case OtherPayload => (Inbox(MarkSeen(s.seen, d.envelope), s.pending), NotAnAttachment)
      case AttachmentChunk(chunk) =>
        var (t, outcome) := HandleChunk(s.pending, d.peer, chunk, d.now, d.saved);
        (Inbox(MarkSeen(s.seen, d.envelope), t), Handled(outcome))
  }

  function ReceiveAll(s: Inbox, run: seq<Delivery>): Inbox {
    if run == [] then s else Receive(ReceiveAll(s, run[..|run| - 1]), run[|run| - 1]).0
  }
}
