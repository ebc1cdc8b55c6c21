/** A file that is cut up, shuffled and repeated on the way arrives once, byte for byte. */
module AttachmentTransfer {
  import opened Foundations
  import opened AttachmentModel
  import opened AttachmentTable
  import Names

  // ---- cutting and joining ----

  lemma ChunkCountBounds(file: Bytes)
    ensures (ChunkCount(file) - 1) * CHUNK_BYTES <= |file| <= ChunkCount(file) * CHUNK_BYTES
    ensures file != [] ==> (ChunkCount(file) - 1) * CHUNK_BYTES < |file|
    ensures |file| <= MAX_FILE_BYTES ==> ChunkCount(file) <= MAX_CHUNKS
  {
  }

  function Parts(file: Bytes, got: set<nat>): seq<Option<Bytes>> {
    seq(ChunkCount(file), i requires 0 <= i < ChunkCount(file) => if i in got then Some(Slice(file, i)) else None)
  }

  lemma {:induction false} SliceExtends(file: Bytes, i: nat)
    requires i < ChunkCount(file)
    ensures file[..Min(i * CHUNK_BYTES, |file|)] + Slice(file, i) == file[..Min((i + 1) * CHUNK_BYTES, |file|)]
  {
    ChunkCountBounds(file);
    assert i * CHUNK_BYTES <= |file|;
  }

  lemma {:induction false} JoinPrefix(file: Bytes, got: set<nat>, n: nat)
    requires n <= ChunkCount(file) && forall i: nat :: i < n ==> i in got
    ensures Join(Parts(file, got)[..n]) == Some(file[..Min(n * CHUNK_BYTES, |file|)])
  {
    if n > 0 {
      ChunkCountBounds(file);
      var parts := Parts(file, got)[..n];
      assert parts[..n - 1] == Parts(file, got)[..n - 1];
      JoinPrefix(file, got, n - 1);
      assert parts[n - 1] == Some(Slice(file, n - 1));
      SliceExtends(file, n - 1);
    }
  }

  /** Joining all slices of a file gives the file back. */
  lemma {:induction false} SlicesJoinToFile(file: Bytes)
    ensures Join(Parts(file, Upto(ChunkCount(file)))) == Some(file)
  {
    var n := ChunkCount(file);
    ChunkCountBounds(file);
    JoinPrefix(file, Upto(n), n);
    assert Parts(file, Upto(n))[..n] == Parts(file, Upto(n));
    assert file[..|file|] == file;
  }

  lemma {:induction false} SliceSizes(file: Bytes, i: nat)
    requires i < ChunkCount(file) && file != []
    ensures 1 <= |Slice(file, i)| <= CHUNK_BYTES
  {
    ChunkCountBounds(file);
  }

  // ---- one transfer among arbitrary other traffic ----

  /** A file on its way: chunk i travels in the envelope envelopes[i]. */
  datatype Sending = Sending(peer: string, kind: string, id: string, filename: string, mime: string, file: Bytes, envelopes: seq<string>) {
    ghost predicate WellFormed() {
      && IsKind(kind) && id != "" && 1 <= |file| <= MAX_FILE_BYTES
      && |envelopes| == ChunkCount(file)
      && (forall i :: 0 <= i < |envelopes| ==> envelopes[i] != "")
      && (forall i, j :: 0 <= i < j < |envelopes| ==> envelopes[i] != envelopes[j])
    }

    function Slot(): string { Key(peer, id) }

    function Part(i: nat): Chunk
      requires i < ChunkCount(file)
    {
      ChunkOf(kind, id, filename, mime, file, i)
    }

    predicate Carries(d: Delivery, i: nat) {
      i < |envelopes| && |envelopes| == ChunkCount(file)
      && d.envelope == envelopes[i] && d.peer == peer && d.payload == AttachmentChunk(Some(Part(i)))
    }

    ghost predicate Ours(d: Delivery) {
      exists i: nat :: Carries(d, i)
    }

    /** Any other envelope, as long as it does not address the same transfer. */
    predicate Foreign(d: Delivery) {
      && d.envelope !in envelopes
      && (d.payload.AttachmentChunk? && d.payload.chunk.Some? ==> Key(d.peer, d.payload.chunk.value.id) != Slot())
    }

    function Arrival(): Outcome {
      Completed(kind, Names.Sanitize(Names.Sanitize(Names.Sanitize(filename))), mime, file)
    }
  }

  ghost predicate Traffic(tx: Sending, run: seq<Delivery>) {
    forall k :: 0 <= k < |run| ==> tx.Ours(run[k]) || tx.Foreign(run[k])
  }

  /** No sweep removes the transfer, no cap turns it away and finished files can be written. */
  ghost predicate UndisturbedBy(tx: Sending, s: Inbox, d: Delivery) {
    d.payload.AttachmentChunk? && !IsDuplicate(s.seen, d.envelope) ==>
      && (tx.Slot() in s.pending ==> d.now - s.pending[tx.Slot()].updatedAt <= TTL)
      && (tx.Ours(d) ==>
        && d.saved
        && (tx.Slot() !in s.pending ==>
             && |Cleanup(s.pending, d.now)| < MAX_PENDING
             && |PendingFor(Cleanup(s.pending, d.now), d.peer)| < MAX_PENDING_PER_PEER))
  }

  ghost predicate Undisturbed(tx: Sending, s: Inbox, run: seq<Delivery>) {
    run == [] ||
    (Undisturbed(tx, s, run[..|run| - 1]) && UndisturbedBy(tx, ReceiveAll(s, run[..|run| - 1]), run[|run| - 1]))
  }

  ghost predicate Delivered(run: seq<Delivery>, envelope: string) {
    exists k :: 0 <= k < |run| && run[k].envelope == envelope
  }

  /** The chunk indices that have been delivered at least once. */
  ghost function Got(tx: Sending, run: seq<Delivery>): set<nat> {
    set i: nat | i < |tx.envelopes| && Delivered(run, tx.envelopes[i])
  }

  ghost predicate Covered(tx: Sending, run: seq<Delivery>) {
    forall i :: 0 <= i < |tx.envelopes| ==> Delivered(run, tx.envelopes[i])
  }

  /** What one delivery reports for the transfer. */
  function Report(tx: Sending, d: Delivery, reply: Reply): seq<Outcome> {
    if reply.Handled? && reply.outcome.Completed? && d.payload.AttachmentChunk?
       && d.payload.chunk.Some? && Key(d.peer, d.payload.chunk.value.id) == tx.Slot()
    then [reply.outcome] else []
  }

  /** The completions a run reports for the transfer, in order. */
  function Completions(tx: Sending, s: Inbox, run: seq<Delivery>): seq<Outcome> {
    if run == [] then []
    else Completions(tx, s, run[..|run| - 1])
         + Report(tx, run[|run| - 1], Receive(ReceiveAll(s, run[..|run| - 1]), run[|run| - 1]).1)
  }

  ghost predicate Progress(tx: Sending, s: Inbox, got: set<nat>) {
    SeenMatches(tx, s.seen, got) && SlotHolds(tx, s.pending, got)
  }

  ghost predicate SeenMatches(tx: Sending, seen: set<string>, got: set<nat>) {
    && got <= Upto(|tx.envelopes|)
    && (forall i: nat :: i < |tx.envelopes| ==> (tx.envelopes[i] in seen <==> i in got))
  }

  ghost predicate SlotHolds(tx: Sending, t: Table, got: set<nat>) {
    if got == {} || got == Upto(|tx.envelopes|) then tx.Slot() !in t
    else tx.Slot() in t && PartlyThere(tx, t[tx.Slot()], got)
  }

  ghost predicate PartlyThere(tx: Sending, x: Transfer, got: set<nat>) {
    && x.kind == tx.kind && x.filename == Names.Sanitize(Names.Sanitize(tx.filename)) && x.mime == tx.mime
    && x.totalSize == |tx.file| && x.chunks == Parts(tx.file, got) && x.received == |got|
  }

  lemma {:induction false} PartIsPlaceable(tx: Sending, i: nat)
    requires tx.WellFormed() && i < |tx.envelopes|
    ensures IsKind(tx.Part(i).kind) && MetadataOk(tx.Part(i))
    ensures tx.Part(i).data.Some? && 1 <= |tx.Part(i).data.value| <= CHUNK_BYTES
  {
    ChunkCountBounds(tx.file);
    SliceSizes(tx.file, i);
    Names.SanitizedIsElement(tx.filename);
  }

  /** A new chunk of ours fills its slot. */
  lemma {:induction false} FillPart(tx: Sending, x: Transfer, got: set<nat>, i: nat, now: int)
    requires tx.WellFormed() && i < |tx.envelopes| && i !in got && got <= Upto(|tx.envelopes|)
    requires PartlyThere(tx, x, got)
    ensures PartlyThere(tx, Fill(x, i, tx.Part(i).data.value, now), got + {i})
  {
    assert Parts(tx.file, got)[i := Some(Slice(tx.file, i))] == Parts(tx.file, got + {i});
  }

  lemma {:induction false} FinishPart(tx: Sending, t: Table, x: Transfer, got: set<nat>)
    requires tx.WellFormed() && got <= Upto(|tx.envelopes|) && PartlyThere(tx, x, got)
    ensures Finish(t, tx.Slot(), x, true) ==
      if got == Upto(|tx.envelopes|) then (t - {tx.Slot()}, tx.Arrival()) else (t[tx.Slot() := x], Waiting)
  {
    SubsetSize(got, Upto(|tx.envelopes|));
    if got == Upto(|tx.envelopes|) { SlicesJoinToFile(tx.file); }
  }

  /** Where a chunk of ours goes: its own entry, or one just opened. */
  lemma {:induction false} TargetOfPart(tx: Sending, t: Table, i: nat, got: set<nat>, now: int)
    requires tx.WellFormed() && i < |tx.envelopes| && i !in got && got <= Upto(|tx.envelopes|) && SlotHolds(tx, t, got)
    requires tx.Slot() in t ==> now - t[tx.Slot()].updatedAt <= TTL
    requires MetadataOk(tx.Part(i))
    ensures PartlyThere(tx, Target(t, tx.peer, tx.Part(i), now), got)
  {
    assert i in Upto(|tx.envelopes|);
    if got == {} {
      assert Target(t, tx.peer, tx.Part(i), now).chunks == Parts(tx.file, {});
    }
  }

  lemma {:induction false} PlacePart(tx: Sending, t: Table, d: Delivery, i: nat, got: set<nat>)
    requires tx.WellFormed() && tx.Carries(d, i) && i !in got && got <= Upto(|tx.envelopes|) && SlotHolds(tx, t, got)
    requires UndisturbedBy(tx, Inbox({}, t), d)
    ensures var r := HandleChunk(t, d.peer, Some(tx.Part(i)), d.now, true);
      && SlotHolds(tx, r.0, got + {i})
      && (tx.Slot() in r.0 ==> r.0[tx.Slot()].updatedAt == d.now)
      && r.1 == if got + {i} == Upto(|tx.envelopes|) then tx.Arrival() else Waiting
  {
    assert tx.Ours(d);
    var c := tx.Part(i);
    PartIsPlaceable(tx, i);
    TargetOfPart(tx, t, i, got, d.now);
    HandleCases(t, d.peer, Some(c), d.now, true);
    var x := Target(t, d.peer, c, d.now);
    FillPart(tx, x, got, i, d.now);
    assert got + {i} <= Upto(|tx.envelopes|);
    FinishPart(tx, Cleanup(t, d.now), Fill(x, i, c.data.value, d.now), got + {i});
  }

  lemma {:induction false} OursNew(tx: Sending, s: Inbox, d: Delivery, i: nat, got: set<nat>)
    requires tx.WellFormed() && Progress(tx, s, got) && tx.Carries(d, i) && i !in got && UndisturbedBy(tx, s, d)
    ensures Progress(tx, Receive(s, d).0, got + {i})
    ensures tx.Slot() in Receive(s, d).0.pending ==> Receive(s, d).0.pending[tx.Slot()].updatedAt == d.now
    ensures Receive(s, d).1 == Handled(if got + {i} == Upto(|tx.envelopes|) then tx.Arrival() else Waiting)
  {
    assert tx.Ours(d);
    PlacePart(tx, s.pending, d, i, got);
    var r := HandleChunk(s.pending, d.peer, Some(tx.Part(i)), d.now, true);
    assert Receive(s, d) == (Inbox(MarkSeen(s.seen, d.envelope), r.0), Handled(r.1));
    SeenGrows(tx, s.seen, i, got);
  }

  lemma {:induction false} SeenGrows(tx: Sending, seen: set<string>, i: nat, got: set<nat>)
    requires tx.WellFormed() && SeenMatches(tx, seen, got) && i < |tx.envelopes|
    ensures SeenMatches(tx, MarkSeen(seen, tx.envelopes[i]), got + {i})
  {
    hide ChunkCount, IsKind, MarkSeen;
    assert i in Upto(|tx.envelopes|);
    forall j: nat | j < |tx.envelopes|
      ensures tx.envelopes[j] in MarkSeen(seen, tx.envelopes[i]) <==> j in got + {i}
    {
      assert tx.envelopes[i] == tx.envelopes[j] ==> i == j;
      MarkedIff(seen, tx.envelopes[i], tx.envelopes[j]);
    }
  }

  lemma MarkedIff(seen: set<string>, marked: string, other: string)
    requires marked != ""
    ensures other in MarkSeen(seen, marked) <==> other in seen || other == marked
  {
  }

  lemma OursAgain(tx: Sending, s: Inbox, d: Delivery, i: nat, got: set<nat>)
    requires tx.WellFormed() && Progress(tx, s, got) && tx.Carries(d, i) && i in got
    ensures Receive(s, d) == (s, Duplicate)
  {
  }

  /** A chunk leaves the entries of other transfers alone, apart from the sweep. */
  lemma {:induction false} HandleKeepsOthers(t: Table, peer: string, chunk: Option<Chunk>, now: int, saved: bool, slot: string)
    requires chunk.Some? ==> Key(peer, chunk.value.id) != slot
    ensures var after, kept := HandleChunk(t, peer, chunk, now, saved).0, Cleanup(t, now);
      (slot in after <==> slot in kept) && (slot in kept ==> after[slot] == kept[slot])
  {
    HandleCases(t, peer, chunk, now, saved);
    if Placed(t, peer, chunk, now) {
      var c := chunk.value;
      FinishShape(Cleanup(t, now), Key(peer, c.id), Fill(Target(t, peer, c, now), c.index, c.data.value, now), saved);
    }
  }

  lemma {:induction false} ForeignKeepsSlot(tx: Sending, s: Inbox, d: Delivery, got: set<nat>)
    requires tx.WellFormed() && Progress(tx, s, got) && tx.Foreign(d) && UndisturbedBy(tx, s, d)
    ensures Progress(tx, Receive(s, d).0, got)
  {
    var s' := Receive(s, d).0;
    assert forall i: nat :: i < |tx.envelopes| ==> tx.envelopes[i] in tx.envelopes;
    if !IsDuplicate(s.seen, d.envelope) && d.payload.AttachmentChunk? {
      HandleKeepsOthers(s.pending, d.peer, d.payload.chunk, d.now, d.saved, tx.Slot());
    }
  }

  lemma {:induction false} GotGrows(tx: Sending, front: seq<Delivery>, d: Delivery)
    requires tx.WellFormed()
    ensures forall i: nat :: tx.Carries(d, i) ==> Got(tx, front + [d]) == Got(tx, front) + {i}
    ensures tx.Foreign(d) ==> Got(tx, front + [d]) == Got(tx, front)
  {
    var run := front + [d];
    forall e ensures Delivered(run, e) <==> Delivered(front, e) || d.envelope == e {
      assert run[|front|] == d;
      if Delivered(front, e) {
        var k :| 0 <= k < |front| && front[k].envelope == e;
        assert run[k].envelope == e;
      }
    }
  }

  ghost predicate StepsTo(tx: Sending, s: Inbox, d: Delivery, got: set<nat>, got': set<nat>) {
    && Progress(tx, Receive(s, d).0, got')
    && Report(tx, d, Receive(s, d).1) ==
       if got' == Upto(|tx.envelopes|) && got != Upto(|tx.envelopes|) then [tx.Arrival()] else []
  }

  lemma {:induction false} StepOfOurs(tx: Sending, s: Inbox, d: Delivery, got: set<nat>, i: nat)
    requires tx.WellFormed() && Progress(tx, s, got) && tx.Carries(d, i) && UndisturbedBy(tx, s, d)
    ensures StepsTo(tx, s, d, got, got + {i})
  {
    hide HandleChunk, Progress, UndisturbedBy;
    if i in got {
      assert got + {i} == got;
      OursAgain(tx, s, d, i, got);
    } else {
      OursNew(tx, s, d, i, got);
      assert i in Upto(|tx.envelopes|);
    }
  }

  lemma {:induction false} ProgressStep(tx: Sending, s: Inbox, front: seq<Delivery>, d: Delivery)
    requires tx.WellFormed() && Progress(tx, s, Got(tx, front))
    requires tx.Ours(d) || tx.Foreign(d)
    requires UndisturbedBy(tx, s, d)
    ensures StepsTo(tx, s, d, Got(tx, front), Got(tx, front + [d]))
  {
    GotGrows(tx, front, d);
    if tx.Ours(d) {
      var i: nat :| tx.Carries(d, i);
      StepOfOurs(tx, s, d, Got(tx, front), i);
    } else {
      ForeignKeepsSlot(tx, s, d, Got(tx, front));
    }
  }

  lemma {:induction false} TrafficParts(tx: Sending, front: seq<Delivery>, d: Delivery)
    requires Traffic(tx, front + [d])
    ensures Traffic(tx, front) && (tx.Ours(d) || tx.Foreign(d))
  {
    var run := front + [d];
    assert run[|front|] == d && forall k :: 0 <= k < |front| ==> run[k] == front[k];
  }

  lemma {:induction false} NothingGot(tx: Sending)
    requires tx.WellFormed()
    ensures Got(tx, []) == {} != Upto(|tx.envelopes|)
  {
    assert 0 in Upto(|tx.envelopes|);
  }

  /** The transfer after any run: what is known about its slot, and what was reported. */
  lemma {:induction false} ProgressOfRun(tx: Sending, s: Inbox, run: seq<Delivery>)
    requires tx.WellFormed() && Progress(tx, s, {}) && Traffic(tx, run) && Undisturbed(tx, s, run)
    ensures Progress(tx, ReceiveAll(s, run), Got(tx, run))
    ensures Completions(tx, s, run) == if Got(tx, run) == Upto(|tx.envelopes|) then [tx.Arrival()] else []
  {
    hide Receive, Progress, UndisturbedBy, Report, Got, Upto, Traffic;
    if run == [] {
      NothingGot(tx);
    } else {
      var front, d := run[..|run| - 1], run[|run| - 1];
      assert run == front + [d];
      TrafficParts(tx, front, d);
      ProgressOfRun(tx, s, front);
      ProgressStep(tx, ReceiveAll(s, front), front, d);
      GotWithin(tx, front, d);
    }
  }

  lemma {:induction false} GotWithin(tx: Sending, front: seq<Delivery>, d: Delivery)
    requires tx.WellFormed() && (tx.Ours(d) || tx.Foreign(d))
    ensures Got(tx, front) == Upto(|tx.envelopes|) ==> Got(tx, front + [d]) == Upto(|tx.envelopes|)
  {
    GotGrows(tx, front, d);
    if tx.Ours(d) {
      var i: nat :| tx.Carries(d, i);
      assert i in Upto(|tx.envelopes|);
    }
  }

  lemma {:induction false} CoveredIffGot(tx: Sending, run: seq<Delivery>)
    ensures Got(tx, run) == Upto(|tx.envelopes|) <==> Covered(tx, run)
  {
    if Got(tx, run) == Upto(|tx.envelopes|) {
      forall i | 0 <= i < |tx.envelopes| ensures Delivered(run, tx.envelopes[i]) { assert i in Got(tx, run); }
    }
  }

  /**
   Exactly-once reassembly. Chunks of a non-empty file of at most 50 MiB travel
   in distinct envelopes; each envelope is delivered any number of times, in
   any order, between any other traffic. Then every prefix of the run reports
   the file exactly once if the prefix covers all chunks, and not at all
   before: so there is one completion, at the first covering prefix, and its
   bytes are the file.
   */
  lemma {:induction false} ExactlyOnce(tx: Sending, s: Inbox, run: seq<Delivery>)
    requires tx.WellFormed() && Traffic(tx, run) && Undisturbed(tx, s, run)
    requires tx.Slot() !in s.pending && forall i :: 0 <= i < |tx.envelopes| ==> tx.envelopes[i] !in s.seen
    ensures forall n :: 0 <= n <= |run| ==>
      Completions(tx, s, run[..n]) == if Covered(tx, run[..n]) then [tx.Arrival()] else []
    ensures tx.Arrival().file == tx.file
  {
    assert Progress(tx, s, {}) by { assert 0 in Upto(|tx.envelopes|); }
    forall n | 0 <= n <= |run|
      ensures Completions(tx, s, run[..n]) == if Covered(tx, run[..n]) then [tx.Arrival()] else []
    {
      UndisturbedPrefix(tx, s, run, n);
      ProgressOfRun(tx, s, run[..n]);
      CoveredIffGot(tx, run[..n]);
    }
  }

  lemma {:induction false} UndisturbedPrefix(tx: Sending, s: Inbox, run: seq<Delivery>, n: nat)
    requires Undisturbed(tx, s, run) && n <= |run|
    ensures Undisturbed(tx, s, run[..n])
    decreases |run|
  {
    if n == |run| {
      assert run[..n] == run;
    } else {
      UndisturbedPrefix(tx, s, run[..|run| - 1], n);
      assert run[..|run| - 1][..n] == run[..n];
    }
  }

  // ---- hypotheses on the deliveries alone ----

  /** The transfer a delivery addresses, if it holds a chunk. */
  function Addressed(d: Delivery): set<string> {
    if d.payload.AttachmentChunk? && d.payload.chunk.Some? then {Key(d.peer, d.payload.chunk.value.id)} else {}
  }

  /** The other transfers a run addresses. */
  function Others(tx: Sending, run: seq<Delivery>): set<string> {
    if run == [] then {} else Others(tx, run[..|run| - 1]) + (Addressed(run[|run| - 1]) - {tx.Slot()})
  }

  function UnderPeer(peer: string, keys: set<string>): set<string> {
    set k | k in keys && peer + ":" <= k
  }

  /** The first delivery of one of our chunks. */
  ghost predicate New(tx: Sending, run: seq<Delivery>, k: nat)
    requires k < |run|
  {
    tx.Ours(run[k]) && !Delivered(run[..k], run[k].envelope)
  }

  /** When the last new chunk of ours came. */
  ghost function LastNew(tx: Sending, run: seq<Delivery>): Option<int> {
    if run == [] then None
    else if New(tx, run, |run| - 1) then Some(run[|run| - 1].now)
    else LastNew(tx, run[..|run| - 1])
  }

  /**
   The file can be written; until the last new chunk of ours, nothing comes
   later than one TTL after the one before; and when the first one comes, the
   other transfers addressed so far leave room below both caps. Nothing is
   asked of what comes after the last new chunk.
   */
  ghost predicate Prompt(tx: Sending, run: seq<Delivery>) {
    && (forall k :: 0 <= k < |run| && New(tx, run, k) ==> run[k].saved)
    && (forall m, k :: 0 <= m <= k < |run| && New(tx, run, k) && LastNew(tx, run[..m]).Some? ==>
          run[m].now - LastNew(tx, run[..m]).value <= TTL)
    && (forall k :: 0 <= k < |run| && New(tx, run, k) && LastNew(tx, run[..k]).None? ==>
          |Others(tx, run[..k])| < MAX_PENDING && |UnderPeer(tx.peer, Others(tx, run[..k]))| < MAX_PENDING_PER_PEER)
  }

  /** On a clock that does not run backwards, it is enough that each new chunk comes within one TTL of the one before. */
  lemma {:induction false} GapsSuffice(tx: Sending, run: seq<Delivery>, m: nat, k: nat)
    requires m <= k < |run| && New(tx, run, k) && LastNew(tx, run[..m]).Some?
    requires forall a, b :: 0 <= a < b < |run| ==> run[a].now <= run[b].now
    requires forall n :: 0 <= n < |run| && New(tx, run, n) && LastNew(tx, run[..n]).Some? ==>
      run[n].now - LastNew(tx, run[..n]).value <= TTL
    ensures run[m].now - LastNew(tx, run[..m]).value <= TTL
    decreases k - m
  {
    if !New(tx, run, m) {
      assert run[..m + 1][..m] == run[..m];
      assert run[m].now <= run[m + 1].now;
      GapsSuffice(tx, run, m + 1, k);
    }
  }

  lemma {:induction false} ClockedIsPrompt(tx: Sending, run: seq<Delivery>)
    requires forall a, b :: 0 <= a < b < |run| ==> run[a].now <= run[b].now
    requires forall k :: 0 <= k < |run| && New(tx, run, k) ==>
      && run[k].saved
      && match LastNew(tx, run[..k])
         case Some(t) => run[k].now - t <= TTL
         case None => |Others(tx, run[..k])| < MAX_PENDING && |UnderPeer(tx.peer, Others(tx, run[..k]))| < MAX_PENDING_PER_PEER
    ensures Prompt(tx, run)
  {
    hide New, LastNew, Others, UnderPeer;
    forall m, k | 0 <= m <= k < |run| && New(tx, run, k) && LastNew(tx, run[..m]).Some?
      ensures run[m].now - LastNew(tx, run[..m]).value <= TTL
    {
      GapsSuffice(tx, run, m, k);
    }
  }

  /** Only addressed transfers are pending, and ours carries the time of the last new chunk. */
  ghost predicate Accounted(tx: Sending, t: Table, run: seq<Delivery>) {
    && t.Keys <= Others(tx, run) + {tx.Slot()}
    && (tx.Slot() in t ==> LastNew(tx, run) == Some(t[tx.Slot()].updatedAt))
  }

  lemma {:induction false} ReceiveAddsAddressed(s: Inbox, d: Delivery)
    ensures Receive(s, d).0.pending.Keys <= s.pending.Keys + Addressed(d)
  {
    if d.payload.AttachmentChunk? {
      HandleCases(s.pending, d.peer, d.payload.chunk, d.now, d.saved);
      if Placed(s.pending, d.peer, d.payload.chunk, d.now) {
        var c := d.payload.chunk.value;
        var x := Fill(Target(s.pending, d.peer, c, d.now), c.index, c.data.value, d.now);
        FinishShape(Cleanup(s.pending, d.now), Key(d.peer, c.id), x, d.saved);
      }
    }
  }

  lemma {:induction false} ForeignKeepsStamp(tx: Sending, s: Inbox, d: Delivery)
    requires tx.Foreign(d)
    ensures var after := Receive(s, d).0.pending;
      tx.Slot() in after ==> tx.Slot() in s.pending && after[tx.Slot()] == s.pending[tx.Slot()]
  {
    if d.payload.AttachmentChunk? {
      HandleKeepsOthers(s.pending, d.peer, d.payload.chunk, d.now, d.saved, tx.Slot());
    }
  }

  /** Among ours, the new ones are those not seen yet. */
  lemma {:induction false} NewIffUnseen(tx: Sending, s: Inbox, front: seq<Delivery>, d: Delivery, i: nat)
    requires tx.WellFormed() && Progress(tx, s, Got(tx, front)) && tx.Carries(d, i)
    ensures New(tx, front + [d], |front|) <==> i !in Got(tx, front)
    ensures IsDuplicate(s.seen, d.envelope) <==> i in Got(tx, front)
  {
    assert (front + [d])[..|front|] == front;
    assert tx.Ours(d);
  }

  lemma {:induction false} NothingNewYet(tx: Sending, run: seq<Delivery>)
    requires tx.WellFormed() && Got(tx, run) == {}
    ensures LastNew(tx, run) == None
  {
    if run != [] {
      var front, d := run[..|run| - 1], run[|run| - 1];
      assert run == front + [d];
      forall i | i in Got(tx, front) ensures i in Got(tx, run) {
        var k :| 0 <= k < |front| && front[k].envelope == tx.envelopes[i];
        assert run[k].envelope == tx.envelopes[i];
      }
      NothingNewYet(tx, front);
      GotGrows(tx, front, d);
      assert forall i: nat :: tx.Carries(d, i) ==> i in Got(tx, run);
    }
  }

  lemma {:induction false} StaysAccounted(tx: Sending, s: Inbox, front: seq<Delivery>, d: Delivery)
    requires tx.WellFormed() && Progress(tx, s, Got(tx, front)) && UndisturbedBy(tx, s, d)
    requires (tx.Ours(d) || tx.Foreign(d)) && Accounted(tx, s.pending, front)
    ensures Accounted(tx, Receive(s, d).0.pending, front + [d])
  {
    hide Receive, Addressed, Progress, UndisturbedBy;
    var run := front + [d];
    assert run[..|front|] == front && run[|front|] == d;
    ReceiveAddsAddressed(s, d);
    if tx.Ours(d) {
      var i: nat :| tx.Carries(d, i);
      NewIffUnseen(tx, s, front, d, i);
      if i in Got(tx, front) { OursAgain(tx, s, d, i, Got(tx, front)); } else { OursNew(tx, s, d, i, Got(tx, front)); }
    } else {
      ForeignKeepsStamp(tx, s, d);
      ForeignIsNotOurs(tx, d);
    }
  }

  lemma ForeignIsNotOurs(tx: Sending, d: Delivery)
    requires tx.Foreign(d)
    ensures !tx.Ours(d)
  {
  }

  lemma {:induction false} PromptStep(tx: Sending, s: Inbox, front: seq<Delivery>, d: Delivery)
    requires tx.WellFormed() && Progress(tx, s, Got(tx, front)) && Accounted(tx, s.pending, front)
    requires LastNew(tx, front).Some? ==> d.now - LastNew(tx, front).value <= TTL
    requires New(tx, front + [d], |front|) ==>
      && d.saved
      && (LastNew(tx, front).None? ==>
            |Others(tx, front)| < MAX_PENDING && |UnderPeer(tx.peer, Others(tx, front))| < MAX_PENDING_PER_PEER)
    ensures UndisturbedBy(tx, s, d)
  {
    hide LastNew;
    if tx.Ours(d) && !IsDuplicate(s.seen, d.envelope) {
      var i: nat :| tx.Carries(d, i);
      NewIffUnseen(tx, s, front, d, i);
      if tx.Slot() !in s.pending {
        assert i in Upto(|tx.envelopes|);
        NothingNewYet(tx, front);
        var kept := Cleanup(s.pending, d.now);
        SubsetSize(kept.Keys, Others(tx, front));
        SubsetSize(PendingFor(kept, tx.peer), UnderPeer(tx.peer, Others(tx, front)));
      }
    }
  }

  /** Up to and including any new chunk the transfer is undisturbed. */
  lemma {:induction false} PromptPrefix(tx: Sending, s: Inbox, run: seq<Delivery>, n: nat, k: nat)
    requires tx.WellFormed() && Progress(tx, s, {}) && s.pending == map[] && Traffic(tx, run) && Prompt(tx, run)
    requires n <= k + 1 <= |run| && New(tx, run, k)
    ensures Undisturbed(tx, s, run[..n]) && Accounted(tx, ReceiveAll(s, run[..n]).pending, run[..n])
  {
    hide Accounted, UndisturbedBy, Receive, Traffic, Got, Progress;
    if n == 0 {
      NothingPending(tx);
    } else {
      var front, d := run[..n - 1], run[n - 1];
      assert run[..n] == front + [d] && run[..n][..n - 1] == front;
      PromptPrefix(tx, s, run, n - 1, k);
      TrafficPrefix(tx, run, n);
      ProgressOfRun(tx, s, front);
      assert New(tx, run[..n], n - 1) <==> New(tx, run, n - 1);
      PromptStep(tx, ReceiveAll(s, front), front, d);
      StaysAccounted(tx, ReceiveAll(s, front), front, d);
    }
  }

  lemma {:induction false} TrafficPrefix(tx: Sending, run: seq<Delivery>, n: nat)
    requires Traffic(tx, run) && 0 < n <= |run|
    ensures Traffic(tx, run[..n - 1]) && Traffic(tx, run[..n]) && (tx.Ours(run[n - 1]) || tx.Foreign(run[n - 1]))
  {
  }

  lemma NothingPending(tx: Sending)
    ensures Accounted(tx, map[], [])
  {
  }

  lemma {:induction false} SeenAfter(s: Inbox, run: seq<Delivery>, e: string)
    requires e != "" && Delivered(run, e)
    ensures e in ReceiveAll(s, run).seen
  {
    var front, d := run[..|run| - 1], run[|run| - 1];
    assert run == front + [d];
    if d.envelope != e {
      var k :| 0 <= k < |run| && run[k].envelope == e;
      assert front[k] == run[k];
      SeenAfter(s, front, e);
    }
  }

  /** A delivery that brings no new chunk reports nothing for the transfer and covers nothing. */
  lemma {:induction false} NotNewReportsNothing(tx: Sending, s: Inbox, front: seq<Delivery>, d: Delivery)
    requires tx.WellFormed() && (tx.Ours(d) || tx.Foreign(d)) && !New(tx, front + [d], |front|)
    ensures Completions(tx, s, front + [d]) == Completions(tx, s, front)
    ensures Covered(tx, front + [d]) <==> Covered(tx, front)
  {
    var run := front + [d];
    assert run[..|front|] == front && run[|front|] == d;
    if tx.Ours(d) {
      var i: nat :| tx.Carries(d, i);
      SeenAfter(s, front, d.envelope);
      GotGrows(tx, front, d);
      assert i in Got(tx, front);
    } else {
      GotGrows(tx, front, d);
    }
    CoveredIffGot(tx, front);
    CoveredIffGot(tx, run);
  }

  lemma {:induction false} PromptFront(tx: Sending, run: seq<Delivery>)
    requires run != [] && Prompt(tx, run)
    ensures Prompt(tx, run[..|run| - 1])
  {
    var front := run[..|run| - 1];
    assert forall k :: 0 <= k <= |front| ==> front[..k] == run[..k];
    assert forall k :: 0 <= k < |front| ==> (New(tx, front, k) <==> New(tx, run, k));
  }

  /** The round trip with hypotheses on the deliveries alone: whatever else arrives, as long as the caps leave room at the start. */
  lemma {:induction false} PromptTransferArrives(tx: Sending, seen: set<string>, run: seq<Delivery>)
    requires tx.WellFormed() && Traffic(tx, run) && Prompt(tx, run)
    requires forall i :: 0 <= i < |tx.envelopes| ==> tx.envelopes[i] !in seen
    ensures Completions(tx, Inbox(seen, map[]), run) == if Covered(tx, run) then [tx.Arrival()] else []
  {
    hide Receive, Prompt, New, Traffic;
    var s := Inbox(seen, map[]);
    if run == [] {
      assert !Delivered(run, tx.envelopes[0]);
    } else {
      var k := |run| - 1;
      assert run[..k] + [run[k]] == run && run[..|run|] == run;
      TrafficPrefix(tx, run, |run|);
      if New(tx, run, k) {
        assert Progress(tx, s, {}) by { assert 0 in Upto(|tx.envelopes|); }
        PromptPrefix(tx, s, run, |run|, k);
        ExactlyOnce(tx, s, run);
      } else {
        PromptFront(tx, run);
        PromptTransferArrives(tx, seen, run[..k]);
        NotNewReportsNothing(tx, s, run[..k], run[k]);
      }
    }
  }

  // ---- which deliveries address the same transfer ----

  /** No other peer and attachment ID share the slot exactly if neither has a ':' of its own. */
  lemma {:induction false} SlotIsOwnIff(peer: string, id: string)
    ensures (forall q, other :: Key(q, other) == Key(peer, id) ==> q == peer && other == id) <==> ':' !in peer && ':' !in id
  {
    var key := Key(peer, id);
    if ':' !in peer && ':' !in id {
      forall q, other | Key(q, other) == key ensures q == peer && other == id {
        SplitsOnce(peer, id, q, other);
      }
    } else if ':' in peer {
      var k :| 0 <= k < |peer| && peer[k] == ':';
      assert key == Key(key[..k], key[k + 1..]);
      assert |key[..k]| == k != |peer|;
    } else {
      var k :| 0 <= k < |id| && id[k] == ':';
      var p := |peer| + 1 + k;
      assert key == Key(key[..p], key[p + 1..]);
      assert |key[..p]| == p != |peer|;
    }
  }

  lemma {:induction false} SplitsOnce(a: string, b: string, c: string, d: string)
    requires ':' !in a && ':' !in b && Key(c, d) == Key(a, b)
    ensures c == a && d == b
  {
    var s, t := Key(a, b), Key(c, d);
    assert t[|c|] == ':' && s[|a|] == ':';
    assert forall k :: 0 <= k < |a| ==> s[k] == a[k];
    assert forall k :: |a| < k < |s| ==> s[k] == b[k - |a| - 1];
    assert a == s[..|a|] && b == s[|a| + 1..] && c == t[..|c|] && d == t[|c| + 1..];
  }

  /** So between names without ':' everything from other peers and of other attachments is foreign. */
  lemma {:induction false} OthersAreForeign(tx: Sending, d: Delivery)
    requires ':' !in tx.peer && ':' !in tx.id && d.envelope !in tx.envelopes
    requires d.payload.AttachmentChunk? && d.payload.chunk.Some? ==> d.peer != tx.peer || d.payload.chunk.value.id != tx.id
    ensures tx.Foreign(d)
  {
    if d.payload.AttachmentChunk? && d.payload.chunk.Some? { SlotIsOwnIff(tx.peer, tx.id); }
  }

  /** The sender's single chunk for an empty file is turned away by every table, so the round trip stops at one byte. */
  lemma EmptyFileIsTurnedAway(t: Table, peer: string, kind: string, id: string, filename: string, mime: string, now: int, saved: bool)
    requires IsKind(kind)
    ensures ChunkCount([]) == 1
    ensures HandleChunk(t, peer, Some(ChunkOf(kind, id, filename, mime, [], 0)), now, saved) == (Cleanup(t, now), Rejected(InvalidMetadata))
  {
  }
}
