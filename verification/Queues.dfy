/** Offline queues of the relay: limits, expiry, and what a drain hands back. */
module QueueModel {
  import opened Foundations

  datatype Envelope = Envelope(id: string, sender: string, recipient: string, body: string, ciphertext: string,
                               nonce: string, signature: string, expiresAt: int, timestamp: int)

  datatype Limits = Limits(maxMessages: int, maxBytes: int)

  type Queues = map<string, seq<Envelope>>

  function EnvelopeSize(e: Envelope): nat {
    |e.body| + |e.ciphertext| + |e.nonce| + |e.signature|
  }

  function TotalSize(queue: seq<Envelope>): nat {
    if queue == [] then 0 else TotalSize(queue[..|queue| - 1]) + EnvelopeSize(queue[|queue| - 1])
  }

  predicate Live(e: Envelope, now: int) {
    e.expiresAt == 0 || e.expiresAt > now
  }

  function LiveAt(now: int): Envelope -> bool {
    (e: Envelope) => Live(e, now)
  }

  function Unexpired(queue: seq<Envelope>, now: int): seq<Envelope> {
    Filter(LiveAt(now), queue)
  }

  predicate Fits(queue: seq<Envelope>, next: Envelope, limits: Limits) {
    && (limits.maxMessages > 0 ==> |queue| + 1 <= limits.maxMessages)
    && (limits.maxBytes > 0 ==> EnvelopeSize(next) + TotalSize(queue) <= limits.maxBytes)
  }

  function QueueOf(q: Queues, mailbox: string): seq<Envelope> {
    if mailbox in q then q[mailbox] else []
  }

  /** The unexpired queue has room, and Bolt takes the mailbox as a key. */
  predicate Acceptable(q: Queues, limits: Limits, e: Envelope, now: int) {
    Fits(Unexpired(QueueOf(q, e.recipient), now), e, limits) && StorableKey(e.recipient)
  }

  /** BoltQueueStore.Enqueue: one transaction, so a refusal leaves the bucket as it was. */
  function Enqueue(q: Queues, limits: Limits, e: Envelope, now: int): (Queues, bool) {
    if Acceptable(q, limits, e, now) then (q[e.recipient := Unexpired(QueueOf(q, e.recipient), now) + [e]], true) else (q, false)
  }

  function Drain(q: Queues, mailbox: string, now: int): (Queues, seq<Envelope>) {
    (q - {mailbox}, Unexpired(QueueOf(q, mailbox), now))
  }

  lemma {:induction false} UnexpiredLater(queue: seq<Envelope>, earlier: int, later: int)
    requires earlier <= later
    ensures Unexpired(Unexpired(queue, earlier), later) == Unexpired(queue, later)
  {
    FilterFilter(LiveAt(earlier), LiveAt(later), queue);
  }

  lemma {:induction false} UnexpiredSize(queue: seq<Envelope>, now: int)
    ensures TotalSize(Unexpired(queue, now)) <= TotalSize(queue) && |Unexpired(queue, now)| <= |queue|
  {
    if queue != [] {
      UnexpiredSize(queue[..|queue| - 1], now);
    }
  }
}

module QueueRuns {
  import opened Foundations
  import opened QueueModel

  datatype Op = EnqueueOp(envelope: Envelope, now: int) | DrainOp(mailbox: string, now: int) {
    function Time(): int { now }
  }

  function Run(limits: Limits, ops: seq<Op>): Queues {
    if ops == [] then map[]
    else
      var q, op := Run(limits, ops[..|ops| - 1]), ops[|ops| - 1];
      match op
      case EnqueueOp(e, now) => Enqueue(q, limits, e, now).0
      case DrainOp(mailbox, now) => Drain(q, mailbox, now).0
  }

  /** The envelopes for a mailbox that were accepted since its last drain, in acceptance order. */
  function AcceptedSinceDrain(limits: Limits, ops: seq<Op>, mailbox: string): seq<Envelope> {
    if ops == [] then []
    else
      var front, op := ops[..|ops| - 1], ops[|ops| - 1];
      match op
      case EnqueueOp(e, now) =>
        AcceptedSinceDrain(limits, front, mailbox)
        + (if e.recipient == mailbox && Enqueue(Run(limits, front), limits, e, now).1 then [e] else [])
      case DrainOp(m, now) =>
        if m == mailbox then [] else AcceptedSinceDrain(limits, front, mailbox)
  }

  ghost predicate Clocked(ops: seq<Op>) {
    forall i, j :: 0 <= i < j < |ops| ==> ops[i].Time() <= ops[j].Time()
  }

  ghost predicate WithinLimits(q: Queues, limits: Limits) {
    forall m :: m in q ==> |q[m]| <= limits.maxMessages && TotalSize(q[m]) <= limits.maxBytes
  }

  /** Every stored queue stays within both limits, over every run. */
  lemma {:induction false} StoredQueuesWithinLimits(limits: Limits, ops: seq<Op>)
    requires limits.maxMessages > 0 && limits.maxBytes > 0
    ensures WithinLimits(Run(limits, ops), limits)
  {
    if ops != [] {
      StoredQueuesWithinLimits(limits, ops[..|ops| - 1]);
      var q, op := Run(limits, ops[..|ops| - 1]), ops[|ops| - 1];
      if op.EnqueueOp? {
        var kept := Unexpired(QueueOf(q, op.envelope.recipient), op.now);
        assert (kept + [op.envelope])[..|kept|] == kept;
      }
    }
  }

  /** What is stored and what was accepted agree as soon as expiry is applied. */
  lemma {:induction false} StoredMatchesAccepted(limits: Limits, ops: seq<Op>, mailbox: string, now: int)
    requires Clocked(ops) && (ops != [] ==> ops[|ops| - 1].Time() <= now)
    ensures Unexpired(QueueOf(Run(limits, ops), mailbox), now) == Unexpired(AcceptedSinceDrain(limits, ops, mailbox), now)
  {
    if ops != [] {
      var front, op := ops[..|ops| - 1], ops[|ops| - 1];
      var q := Run(limits, front);
      assert front != [] ==> ops[|ops| - 2].Time() <= op.Time();
      StoredMatchesAccepted(limits, front, mailbox, now);
      if op.EnqueueOp? && op.envelope.recipient == mailbox && Enqueue(q, limits, op.envelope, op.now).1 {
        var kept := Unexpired(QueueOf(q, mailbox), op.now);
        FilterConcat(LiveAt(now), kept, [op.envelope]);
        FilterConcat(LiveAt(now), AcceptedSinceDrain(limits, front, mailbox), [op.envelope]);
        UnexpiredLater(QueueOf(q, mailbox), op.now, now);
        assert Run(limits, ops) == q[mailbox := kept + [op.envelope]];
        assert AcceptedSinceDrain(limits, ops, mailbox) == AcceptedSinceDrain(limits, front, mailbox) + [op.envelope];
      } else if op.EnqueueOp? {
        assert AcceptedSinceDrain(limits, ops, mailbox) == AcceptedSinceDrain(limits, front, mailbox);
      }
    }
  }

  /**
   Queue refinement: a drain hands back exactly the envelopes accepted since
   the last drain that have not expired, in acceptance order, and leaves none.
   */
  lemma {:induction false} DrainIsExact(limits: Limits, ops: seq<Op>, mailbox: string, now: int)
    requires Clocked(ops + [DrainOp(mailbox, now)])
    ensures Drain(Run(limits, ops), mailbox, now).1 == Unexpired(AcceptedSinceDrain(limits, ops, mailbox), now)
    ensures QueueOf(Drain(Run(limits, ops), mailbox, now).0, mailbox) == []
    ensures forall m :: m != mailbox ==> QueueOf(Drain(Run(limits, ops), mailbox, now).0, m) == QueueOf(Run(limits, ops), m)
    ensures forall e :: e in Drain(Run(limits, ops), mailbox, now).1 <==>
      e in AcceptedSinceDrain(limits, ops, mailbox) && (e.expiresAt == 0 || now < e.expiresAt)
  {
    FilterMembers(LiveAt(now), AcceptedSinceDrain(limits, ops, mailbox));
    var all := ops + [DrainOp(mailbox, now)];
    assert forall i :: 0 <= i < |ops| ==> ops[i] == all[i];
    assert ops != [] ==> all[|ops| - 1].Time() <= all[|ops|].Time();
    StoredMatchesAccepted(limits, ops, mailbox, now);
  }

  /** A refusal means the unexpired backlog leaves no room or the mailbox is no key, and then nothing changes. */
  lemma {:induction false} RefusedIffFull(limits: Limits, ops: seq<Op>, e: Envelope, now: int)
    requires limits.maxMessages > 0 && limits.maxBytes > 0 && Clocked(ops + [EnqueueOp(e, now)])
    ensures var q := Run(limits, ops);
      var backlog := Unexpired(AcceptedSinceDrain(limits, ops, e.recipient), now);
      && (!Enqueue(q, limits, e, now).1 <==>
            || |backlog| == limits.maxMessages || TotalSize(backlog) + EnvelopeSize(e) > limits.maxBytes
            || !StorableKey(e.recipient))
      && (!Enqueue(q, limits, e, now).1 ==> Enqueue(q, limits, e, now).0 == q)
  {
    var all := ops + [EnqueueOp(e, now)];
    assert forall i :: 0 <= i < |ops| ==> ops[i] == all[i];
    assert ops != [] ==> all[|ops| - 1].Time() <= all[|ops|].Time();
    StoredMatchesAccepted(limits, ops, e.recipient, now);
    StoredQueuesWithinLimits(limits, ops);
    UnexpiredSize(QueueOf(Run(limits, ops), e.recipient), now);
  }
}

/** What counts towards the limits. */
module QueueLimits {
  import opened QueueModel

  /** All the text a queue holds. */
  function Texts(queue: seq<Envelope>): string {
    if queue == [] then ""
    else
      var e := queue[|queue| - 1];
      Texts(queue[..|queue| - 1]) + e.body + e.ciphertext + e.nonce + e.signature
  }

  lemma {:induction false} SizeIsText(queue: seq<Envelope>)
    ensures TotalSize(queue) == |Texts(queue)|
  {
    if queue != [] { SizeIsText(queue[..|queue| - 1]); }
  }

  /** One more envelope has room exactly if the queue then keeps to each limit that is set; a limit of zero is none. */
  lemma {:induction false} FitsIff(queue: seq<Envelope>, next: Envelope, limits: Limits)
    ensures Fits(queue, next, limits) <==>
      && (limits.maxMessages <= 0 || |queue + [next]| <= limits.maxMessages)
      && (limits.maxBytes <= 0 || |Texts(queue + [next])| <= limits.maxBytes)
  {
    SizeIsText(queue);
    assert (queue + [next])[..|queue|] == queue;
  }
}

/** The stores as objects: Bolt's transactions and the memory store's shared arrays. */
module QueueStores {
  import opened Foundations
  import opened InPlace
  import opened QueueModel

  method ValidateQueueLimits(queue: seq<Envelope>, next: Envelope, limits: Limits) returns (ok: bool)
    ensures ok == Fits(queue, next, limits)
  {
    if limits.maxMessages > 0 && |queue| + 1 > limits.maxMessages {
      return false;
    }
    if limits.maxBytes <= 0 {
      return true;
    }
    var totalBytes := EnvelopeSize(next);
    var i := 0;
    while i < |queue|
      invariant 0 <= i <= |queue|
      invariant totalBytes == EnvelopeSize(next) + TotalSize(queue[..i])
    {
      assert queue[..i + 1][..i] == queue[..i];
      totalBytes := totalBytes + EnvelopeSize(queue[i]);
      i := i + 1;
    }
    assert queue[..i] == queue;
    return totalBytes <= limits.maxBytes;
  }

  class BoltQueueStore {
    var bucket: Queues
    var limits: Limits

    constructor ()
      ensures bucket == map[]
    {
      bucket, limits := map[], Limits(0, 0);
    }

    method SetLimits(limits: Limits)
      modifies this`limits
      ensures this.limits == limits
    {
      this.limits := limits;
    }

    /** The queue is decoded into a fresh array; only a commit writes the bucket. */
    method Enqueue(e: Envelope, now: int) returns (ok: bool)
      modifies this`bucket
      ensures (bucket, ok) == QueueModel.Enqueue(old(bucket), limits, e, now)
    {
      var stored := if e.recipient in bucket then bucket[e.recipient] else [];
      var queue := new Envelope[|stored|](i requires 0 <= i < |stored| => stored[i]);
      assert queue[..] == stored;
      var n := FilterInPlace(queue, LiveAt(now));
      ok := ValidateQueueLimits(queue[..n], e, limits);
      ok := ok && StorableKey(e.recipient);
      if ok {
        bucket := bucket[e.recipient := queue[..n] + [e]];
      }
    }

    method Drain(mailbox: string, now: int) returns (backlog: seq<Envelope>)
      modifies this`bucket
      ensures (bucket, backlog) == QueueModel.Drain(old(bucket), mailbox, now)
    {
      if mailbox !in bucket {
        assert bucket - {mailbox} == bucket;
        return [];
      }
      var stored := bucket[mailbox];
      var queue := new Envelope[|stored|](i requires 0 <= i < |stored| => stored[i]);
      assert queue[..] == stored;
      var n := FilterInPlace(queue, LiveAt(now));
      bucket := bucket - {mailbox};
      backlog := queue[..n];
    }
  }

  /** What compaction leaves in an array: the survivors, then the old tail. */
  function Compacted(queue: seq<Envelope>, now: int): seq<Envelope> {
    var kept := Unexpired(queue, now);
    if |kept| <= |queue| then kept + queue[|kept|..] else kept
  }

  /** MemoryQueueStore.Enqueue: a refusal has already compacted the stored queue. */
  function EnqueueInMemory(q: Queues, limits: Limits, e: Envelope, now: int): (Queues, bool) {
    var kept := Unexpired(QueueOf(q, e.recipient), now);
    if Fits(kept, e, limits) then (q[e.recipient := kept + [e]], true)
    else if e.recipient in q then (q[e.recipient := Compacted(q[e.recipient], now)], false)
    else (q, false)
  }

  /** Under a key Bolt takes, the two stores give the same answer, and after an accepted call they hold the same. */
  lemma MemoryAgreesWithBolt(q: Queues, limits: Limits, e: Envelope, now: int)
    requires StorableKey(e.recipient)
    ensures EnqueueInMemory(q, limits, e, now).1 == Enqueue(q, limits, e, now).1
    ensures Enqueue(q, limits, e, now).1 ==> EnqueueInMemory(q, limits, e, now).0 == Enqueue(q, limits, e, now).0
  {
  }

  /** The in-memory store keeps each queue in an array that compaction shares with the map. */
  class MemoryQueueStore {
    var mailboxes: map<string, array<Envelope>>
    var limits: Limits

    ghost predicate Valid()
      reads this
    {
      forall j, k :: j in mailboxes && k in mailboxes && j != k ==> mailboxes[j] != mailboxes[k]
    }

    ghost function View(): Queues
      reads this, mailboxes.Values
    {
      map k | k in mailboxes :: mailboxes[k][..]
    }

    constructor ()
      ensures Valid() && View() == map[]
    {
      mailboxes, limits := map[], Limits(0, 0);
    }

    method Enqueue(e: Envelope, now: int) returns (ok: bool)
      requires Valid()
      modifies this`mailboxes, mailboxes.Values
      ensures Valid()
      ensures (View(), ok) == EnqueueInMemory(old(View()), limits, e, now)
    {
      hide Compacted, Unexpired, Fits;
      var kept := Compact(e.recipient, now);
      ok := ValidateQueueLimits(kept, e, limits);
      if ok {
        Replace(e.recipient, kept + [e]);
        assert View() == old(View())[e.recipient := kept + [e]];
      }
    }

    method Replace(mailbox: string, next: seq<Envelope>)
      requires Valid()
      modifies this`mailboxes
      ensures Valid() && View() == old(View())[mailbox := next]
    {
      var queue := new Envelope[|next|](i requires 0 <= i < |next| => next[i]);
      assert queue[..] == next;
      mailboxes := mailboxes[mailbox := queue];
    }

    /** filterExpired on the stored slice: it writes the array the map still refers to. */
    method Compact(mailbox: string, now: int) returns (kept: seq<Envelope>)
      requires Valid()
      modifies mailboxes.Values
      ensures kept == Unexpired(QueueOf(old(View()), mailbox), now)
      ensures View() == if mailbox in old(View()) then old(View())[mailbox := Compacted(old(View())[mailbox], now)] else old(View())
    {
      if mailbox !in mailboxes {
        return [];
      }
      ghost var before := View();
      var queue := mailboxes[mailbox];
      var n := FilterInPlace(queue, LiveAt(now));
      kept := queue[..n];
      FilterLength(LiveAt(now), before[mailbox]);
      assert queue[..] == queue[..n] + queue[n..];
      forall k | k in mailboxes && k != mailbox ensures mailboxes[k][..] == before[k] {
        assert mailboxes[k] != queue;
      }
    }
  }

  /** Every expired envelope sits behind every unexpired one. */
  ghost predicate ExpiredLast(queue: seq<Envelope>, now: int) {
    forall i, j :: 0 <= i < j < |queue| && Live(queue[j], now) ==> Live(queue[i], now)
  }

  lemma {:induction false} FrontSurvives(queue: seq<Envelope>, now: int)
    requires ExpiredLast(queue, now)
    ensures Unexpired(queue, now) <= queue
  {
    if queue != [] {
      var front, last := queue[..|queue| - 1], queue[|queue| - 1];
      assert queue == front + [last];
      FrontSurvives(front, now);
      if Live(last, now) {
        forall x | x in front ensures Live(x, now) {
          var i :| 0 <= i < |front| && front[i] == x;
          assert queue[i] == x && queue[|front|] == last;
        }
        FilterAll(LiveAt(now), front);
      }
    }
  }

  lemma {:induction false} SurvivorsInFront(queue: seq<Envelope>, now: int, n: nat)
    requires n == |Unexpired(queue, now)| <= |queue| && Unexpired(queue, now) == queue[..n]
    ensures forall x :: x in queue[..n] ==> Live(x, now)
    ensures forall x :: x in queue[n..] ==> !Live(x, now)
  {
    var front, back := queue[..n], queue[n..];
    assert queue == front + back;
    FilterMembers(LiveAt(now), queue);
    FilterConcat(LiveAt(now), front, back);
    FilterAll(LiveAt(now), front);
    assert Filter(LiveAt(now), back) == [] by { assert |front + Filter(LiveAt(now), back)| == |front|; }
    FilterMembers(LiveAt(now), back);
  }

  lemma {:induction false} SurvivingFront(queue: seq<Envelope>, now: int)
    requires Unexpired(queue, now) <= queue
    ensures ExpiredLast(queue, now)
  {
    var n := |Unexpired(queue, now)|;
    SurvivorsInFront(queue, now, n);
    hide Unexpired, Live;
    var front, back := queue[..n], queue[n..];
    forall i | 0 <= i < n ensures Live(queue[i], now) { assert front[i] == queue[i] && front[i] in front; }
    forall j | n <= j < |queue| ensures !Live(queue[j], now) { assert back[j - n] == queue[j] && back[j - n] in back; }
  }

  /**
   A rejected call leaves the memory store's queue unchanged exactly when every
   expired envelope sits behind every unexpired one. Bolt needs no such condition.
   */
  lemma {:induction false} RejectionHarmlessIff(queue: seq<Envelope>, now: int)
    ensures Compacted(queue, now) == queue <==> ExpiredLast(queue, now)
  {
    var kept := Unexpired(queue, now);
    FilterLength(LiveAt(now), queue);
    assert queue == queue[..|kept|] + queue[|kept|..];
    if Compacted(queue, now) == queue {
      assert kept == Compacted(queue, now)[..|kept|];
      SurvivingFront(queue, now);
    }
    if ExpiredLast(queue, now) {
      FrontSurvives(queue, now);
    }
  }

  /** A surviving envelope is counted twice as often as it sits behind the place where the survivors end. */
  lemma {:induction false} SurvivorCounts(queue: seq<Envelope>, now: int, e: Envelope)
    requires Live(e, now)
    ensures |Unexpired(queue, now)| <= |queue|
    ensures multiset(Compacted(queue, now))[e] == multiset(queue)[e] + multiset(queue[|Unexpired(queue, now)|..])[e]
  {
    FilterLength(LiveAt(now), queue);
    FilterMultiset(LiveAt(now), queue);
  }

  /** A refused call leaves some surviving envelope stored more often than before exactly when it does any harm. */
  lemma {:induction false} RejectionDuplicatesIff(queue: seq<Envelope>, now: int)
    ensures (exists e :: e in queue && Live(e, now) && multiset(Compacted(queue, now))[e] > multiset(queue)[e])
       <==> !ExpiredLast(queue, now)
  {
    var n := |Unexpired(queue, now)|;
    FilterLength(LiveAt(now), queue);
    if ExpiredLast(queue, now) {
      RejectionHarmlessIff(queue, now);
    } else if exists e :: e in queue[n..] && Live(e, now) {
      var e :| e in queue[n..] && Live(e, now);
      SurvivorCounts(queue, now, e);
      assert e in queue;
    } else {
      assert queue == queue[..n] + queue[n..];
      FilterConcat(LiveAt(now), queue[..n], queue[n..]);
      FilterNone(LiveAt(now), queue[n..]);
      FilterLength(LiveAt(now), queue[..n]);
      SurvivingFront(queue, now);
    }
  }

  lemma {:induction false} UnexpiredOfTwo(a: Envelope, b: Envelope, now: int)
    ensures Unexpired([a], now) == if Live(a, now) then [a] else []
    ensures Unexpired([a, b], now) == Unexpired([a], now) + Unexpired([b], now)
  {
    assert [a, b] == [a] + [b] && [a][..0] == [];
    FilterConcat(LiveAt(now), [a], [b]);
  }

  lemma {:induction false} BothAccepted(limits: Limits, gone: Envelope, kept: Envelope, now: int)
    requires gone.recipient == kept.recipient && Live(gone, now) && Fits([], gone, limits) && Fits([gone], kept, limits)
    ensures var (q, first) := EnqueueInMemory(map[], limits, gone, now);
      first && EnqueueInMemory(q, limits, kept, now) == (map[gone.recipient := [gone, kept]], true)
  {
    hide Compacted, Fits;
    UnexpiredOfTwo(gone, kept, now);
    assert Unexpired([], now) == [];
    assert EnqueueInMemory(map[], limits, gone, now).0[gone.recipient] == [gone];
    assert [gone] + [kept] == [gone, kept];
    assert map[gone.recipient := [gone]][gone.recipient := [gone, kept]] == map[gone.recipient := [gone, kept]];
    assert EnqueueInMemory(map[], limits, gone, now) == (map[gone.recipient := [gone]], true) by {
      assert map[][gone.recipient := [gone]] == map[gone.recipient := [gone]];
    }
  }

  lemma {:induction false} ThirdRefused(limits: Limits, gone: Envelope, kept: Envelope, third: Envelope, now: int)
    requires gone.recipient == third.recipient && !Live(gone, now) && Live(kept, now) && !Fits([kept], third, limits)
    ensures EnqueueInMemory(map[gone.recipient := [gone, kept]], limits, third, now) == (map[gone.recipient := [kept, kept]], false)
    ensures Drain(map[gone.recipient := [kept, kept]], gone.recipient, now).1 == [kept, kept]
  {
    hide Fits;
    UnexpiredOfTwo(gone, kept, now);
    UnexpiredOfTwo(kept, kept, now);
    assert Compacted([gone, kept], now) == [kept, kept];
    assert map[gone.recipient := [gone, kept]][gone.recipient := [kept, kept]] == map[gone.recipient := [kept, kept]];
  }

  /**
   A refused call makes the relay deliver twice: two envelopes are stored, one
   expires, a third is refused for its size, and the drain hands back the
   other one twice.
   */
  lemma {:induction false} RefusedCallDeliversTwice(mailbox: string)
    ensures var limits := Limits(4, 4);
      var gone := Envelope("1", "", mailbox, "a", "", "", "", 1, 0);
      var kept := Envelope("2", "", mailbox, "bb", "", "", "", 0, 0);
      var third := Envelope("3", "", mailbox, "ccc", "", "", "", 0, 0);
      var (q1, first) := EnqueueInMemory(map[], limits, gone, 0);
      var (q2, second) := EnqueueInMemory(q1, limits, kept, 0);
      var (q3, last) := EnqueueInMemory(q2, limits, third, 1);
      first && second && !last && Drain(q3, mailbox, 1).1 == [kept, kept]
  {
    hide EnqueueInMemory, Drain;
    var gone := Envelope("1", "", mailbox, "a", "", "", "", 1, 0);
    var kept := Envelope("2", "", mailbox, "bb", "", "", "", 0, 0);
    assert [gone][..0] == [] && [kept][..0] == [];
    assert TotalSize([gone]) == 1 && TotalSize([kept]) == 2;
    BothAccepted(Limits(4, 4), gone, kept, 0);
    ThirdRefused(Limits(4, 4), gone, kept, Envelope("3", "", mailbox, "ccc", "", "", "", 0, 0), 1);
  }
}
