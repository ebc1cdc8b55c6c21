/** The relay's live subscribers, by mailbox. */
module SubscriberSets {
  type Session = nat
  type Subscribers = map<string, set<Session>>

  function Subs(subs: Subscribers, mailbox: string): set<Session> {
    if mailbox in subs then subs[mailbox] else {}
  }

  function Touch(subs: Subscribers, mailbox: string): Subscribers {
    subs[mailbox := Subs(subs, mailbox)]
  }

  function AddSub(subs: Subscribers, mailbox: string, s: Session): Subscribers {
    subs[mailbox := Subs(subs, mailbox) + {s}]
  }

  function RemoveSub(subs: Subscribers, mailbox: string, s: Session): Subscribers {
    if mailbox !in subs then subs
    else if subs[mailbox] - {s} == {} then subs - {mailbox}
    else subs[mailbox := subs[mailbox] - {s}]
  }
}

/**
 Delivery through the relay. Publishing and registering each take two atomic
 steps with the lock released in between, so they are separate steps here and
 any run interleaves them freely.
 */
module DeliveryModel {
  import opened Foundations
  import opened QueueModel
  import opened SubscriberSets

  datatype Fate =
    | SentLive(envelope: Envelope, receivers: set<Session>)
    | HandedOver(envelope: Envelope, session: Session)
    | Expired(envelope: Envelope)
    | Refused(envelope: Envelope)

  /** inFlight: published while nobody listened, on the way to the queue; draining: registered, backlog not fetched yet. */
  datatype Relay = Relay(subs: Subscribers, queues: Queues, inFlight: seq<Envelope>,
                         draining: map<Session, string>, published: seq<Envelope>, log: seq<Fate>)

  datatype Step =
    | Publish(draft: Envelope, id: string, now: int)
    | Queue(position: nat, now: int)
    | QueueFails(position: nat)
    | Add(session: Session, mailbox: string)
    | Fetch(session: Session, now: int)
    | FetchFails(session: Session)
    | Leave(session: Session, mailbox: string)

  function Finalize(draft: Envelope, id: string, now: int, ttl: int): Envelope {
    draft.(id := id, timestamp := now, expiresAt := now + ttl)
  }

  function Lost(queue: seq<Envelope>, now: int): seq<Envelope> {
    Filter((e: Envelope) => !Live(e, now), queue)
  }

  function AllExpired(queue: seq<Envelope>): seq<Fate> {
    seq(|queue|, i requires 0 <= i < |queue| => Expired(queue[i]))
  }

  function AllHandedOver(queue: seq<Envelope>, s: Session): seq<Fate> {
    seq(|queue|, i requires 0 <= i < |queue| => HandedOver(queue[i], s))
  }

  function Ids(envelopes: seq<Envelope>): set<string> {
    set e | e in envelopes :: e.id
  }

  /** A fresh envelope ID; a session works on one message at a time. */
  predicate Enabled(r: Relay, step: Step) {
    match step
    case Publish(_, id, _) => id !in Ids(r.published)
    case Queue(position, _) => position < |r.inFlight|
    case QueueFails(position) => position < |r.inFlight|
    case Add(s, _) => s !in r.draining
    case Fetch(s, _) => s in r.draining
    case FetchFails(s) => s in r.draining
    case Leave(s, _) => s !in r.draining
  }

  function DoPublish(r: Relay, e: Envelope): Relay {
    var receivers := Subs(r.subs, e.recipient);
    var r' := r.(subs := Touch(r.subs, e.recipient), published := r.published + [e]);
    if receivers == {} then r'.(inFlight := r.inFlight + [e])
    else r'.(log := r.log + [SentLive(e, receivers)])
  }

  function DoQueue(r: Relay, limits: Limits, position: nat, now: int): Relay
    requires position < |r.inFlight|
  {
    var e := r.inFlight[position];
    var (queues, accepted) := Enqueue(r.queues, limits, e, now);
    if !accepted then Refuse(r, position)
    else r.(inFlight := r.inFlight[..position] + r.inFlight[position + 1..],
            queues := queues,
            log := r.log + AllExpired(Lost(QueueOf(r.queues, e.recipient), now)))
  }

  /** The publisher gets an error. */
  function Refuse(r: Relay, position: nat): Relay
    requires position < |r.inFlight|
  {
    r.(inFlight := r.inFlight[..position] + r.inFlight[position + 1..], log := r.log + [Refused(r.inFlight[position])])
  }

  function DoFetch(r: Relay, s: Session, now: int): Relay
    requires s in r.draining
  {
    var m := r.draining[s];
    var (queues, backlog) := Drain(r.queues, m, now);
    r.(draining := r.draining - {s}, queues := queues,
       log := r.log + AllExpired(Lost(QueueOf(r.queues, m), now)) + AllHandedOver(backlog, s))
  }

  function Next(r: Relay, limits: Limits, ttl: int, step: Step): Relay
    requires Enabled(r, step)
  {
    match step
    case Publish(draft, id, now) => DoPublish(r, Finalize(draft, id, now, ttl))
    case Queue(position, now) => DoQueue(r, limits, position, now)
    case QueueFails(position) => Refuse(r, position)
    case Add(s, m) => r.(subs := AddSub(r.subs, m, s), draining := r.draining[s := m])
    case Fetch(s, now) => DoFetch(r, s, now)
    case FetchFails(s) => r.(draining := r.draining - {s})
    case Leave(s, m) => r.(subs := RemoveSub(r.subs, m, s))
  }

  const START := Relay(map[], map[], [], map[], [], [])

  /** Any sequence of steps; one that is not enabled does not happen. */
  function Run(limits: Limits, ttl: int, steps: seq<Step>): Relay {
    if steps == [] then START
    else
      var r, step := Run(limits, ttl, steps[..|steps| - 1]), steps[|steps| - 1];
      if Enabled(r, step) then Next(r, limits, ttl, step) else r
  }
}

/** Conservation: nothing that was published is lost or doubled, in any interleaving. */
module DeliveryConservation {
  import opened Foundations
  import opened QueueModel
  import opened SubscriberSets
  import opened DeliveryModel

  function Logged(log: seq<Fate>): seq<Envelope> {
    seq(|log|, i requires 0 <= i < |log| => log[i].envelope)
  }

  /** How often an envelope sits in the three places it can be. */
  ghost function Places(r: Relay, e: Envelope): nat {
    multiset(r.inFlight)[e] + multiset(QueueOf(r.queues, e.recipient))[e] + multiset(Logged(r.log))[e]
  }

  /** Every queued envelope is queued for its recipient. */
  ghost predicate Addressed(q: Queues) {
    forall m, e :: e in QueueOf(q, m) ==> e.recipient == m
  }

  ghost predicate DistinctIds(published: seq<Envelope>) {
    forall i, j :: 0 <= i < j < |published| ==> published[i].id != published[j].id
  }

  ghost predicate Conserved(r: Relay) {
    && (forall e :: Places(r, e) == multiset(r.published)[e])
    && Addressed(r.queues)
    && DistinctIds(r.published)
  }

  lemma LoggedConcat(a: seq<Fate>, b: seq<Fate>)
    ensures Logged(a + b) == Logged(a) + Logged(b)
  {
  }

  lemma LoggedLists(queue: seq<Envelope>, s: Session)
    ensures Logged(AllExpired(queue)) == queue
    ensures Logged(AllHandedOver(queue, s)) == queue
  {
  }

  lemma {:induction false} ExpirySplits(queue: seq<Envelope>, now: int)
    ensures forall e :: multiset(Unexpired(queue, now))[e] + multiset(Lost(queue, now))[e] == multiset(queue)[e]
    ensures forall e :: e in Unexpired(queue, now) || e in Lost(queue, now) ==> e in queue
  {
    FilterMultiset(LiveAt(now), queue);
    FilterMultiset((e: Envelope) => !Live(e, now), queue);
    FilterMembers(LiveAt(now), queue);
    FilterMembers((e: Envelope) => !Live(e, now), queue);
  }

  lemma {:induction false} RemoveOne(s: seq<Envelope>, i: nat)
    requires i < |s|
    ensures multiset(s[..i] + s[i + 1..]) == multiset(s) - multiset{s[i]}
  {
    assert s == s[..i] + [s[i]] + s[i + 1..];
  }

  lemma {:induction false} AddressedAfterQueue(q: Queues, limits: Limits, e: Envelope, now: int)
    requires Addressed(q)
    ensures Addressed(Enqueue(q, limits, e, now).0)
  {
    var queue := QueueOf(q, e.recipient);
    var q' := Enqueue(q, limits, e, now).0;
    ExpirySplits(queue, now);
    forall m, x | x in QueueOf(q', m) ensures x.recipient == m {
      assert m != e.recipient ==> QueueOf(q', m) == QueueOf(q, m);
      assert m == e.recipient ==> x == e || x in queue;
    }
  }

  lemma {:induction false} PublishConserves(r: Relay, e: Envelope)
    requires Conserved(r) && e.id !in Ids(r.published)
    ensures Conserved(DoPublish(r, e))
  {
    hide DistinctIds, Addressed;
    var r' := DoPublish(r, e);
    LoggedConcat(r.log, [SentLive(e, Subs(r.subs, e.recipient))]);
    assert Logged([SentLive(e, Subs(r.subs, e.recipient))]) == [e];
    forall x ensures Places(r', x) == multiset(r'.published)[x] {
      assert Places(r, x) == multiset(r.published)[x];
    }
    FreshIdStaysDistinct(r.published, e);
  }

  lemma {:induction false} FreshIdStaysDistinct(published: seq<Envelope>, e: Envelope)
    requires DistinctIds(published) && e.id !in Ids(published)
    ensures DistinctIds(published + [e])
  {
    assert forall i :: 0 <= i < |published| ==> published[i].id in Ids(published);
  }

  lemma {:induction false} AcceptMoves(r: Relay, r': Relay, position: nat, kept: seq<Envelope>, lost: seq<Envelope>, x: Envelope)
    requires position < |r.inFlight|
    requires var e := r.inFlight[position];
      && r'.inFlight == r.inFlight[..position] + r.inFlight[position + 1..]
      && r'.queues == r.queues[e.recipient := kept + [e]]
      && Logged(r'.log) == Logged(r.log) + lost
      && multiset(kept)[x] + multiset(lost)[x] == multiset(QueueOf(r.queues, e.recipient))[x]
      && (x.recipient != e.recipient ==> x !in lost)
    ensures Places(r', x) == Places(r, x)
  {
    RemoveOne(r.inFlight, position);
  }

  lemma {:induction false} AcceptBalances(r: Relay, limits: Limits, position: nat, now: int, x: Envelope)
    requires Conserved(r) && position < |r.inFlight| && Enqueue(r.queues, limits, r.inFlight[position], now).1
    ensures Places(DoQueue(r, limits, position, now), x) == Places(r, x)
  {
    hide DistinctIds, Unexpired, Lost, Acceptable;
    var e := r.inFlight[position];
    var queue := QueueOf(r.queues, e.recipient);
    var kept, lost := Unexpired(queue, now), Lost(queue, now);
    ExpirySplits(queue, now);
    LoggedLists(lost, 0);
    LoggedConcat(r.log, AllExpired(lost));
    AcceptMoves(r, DoQueue(r, limits, position, now), position, kept, lost, x);
  }

  lemma {:induction false} RefuseBalances(r: Relay, position: nat, x: Envelope)
    requires position < |r.inFlight|
    ensures Places(Refuse(r, position), x) == Places(r, x)
  {
    RemoveOne(r.inFlight, position);
    LoggedConcat(r.log, [Refused(r.inFlight[position])]);
    assert Logged([Refused(r.inFlight[position])]) == [r.inFlight[position]];
  }

  lemma {:induction false} QueueConserves(r: Relay, limits: Limits, position: nat, now: int)
    requires Conserved(r) && position < |r.inFlight|
    ensures Conserved(DoQueue(r, limits, position, now))
  {
    hide DistinctIds, Addressed, Unexpired, Lost, Acceptable, Places;
    var r' := DoQueue(r, limits, position, now);
    AddressedAfterQueue(r.queues, limits, r.inFlight[position], now);
    forall x ensures Places(r', x) == multiset(r'.published)[x] {
      if Enqueue(r.queues, limits, r.inFlight[position], now).1 {
        AcceptBalances(r, limits, position, now, x);
      } else {
        RefuseBalances(r, position, x);
      }
    }
  }

  lemma {:induction false} RefuseConserves(r: Relay, position: nat)
    requires Conserved(r) && position < |r.inFlight|
    ensures Conserved(Refuse(r, position))
  {
    hide DistinctIds, Addressed, Places;
    forall x ensures Places(Refuse(r, position), x) == multiset(r.published)[x] {
      RefuseBalances(r, position, x);
    }
  }

  lemma FetchMoves(r: Relay, r': Relay, m: string, backlog: seq<Envelope>, lost: seq<Envelope>, x: Envelope)
    requires r'.inFlight == r.inFlight && r'.queues == r.queues - {m}
    requires Logged(r'.log) == Logged(r.log) + lost + backlog
    requires multiset(backlog)[x] + multiset(lost)[x] == multiset(QueueOf(r.queues, m))[x]
    requires x.recipient != m ==> x !in lost && x !in backlog
    ensures Places(r', x) == Places(r, x)
  {
  }

  lemma {:induction false} FetchConserves(r: Relay, s: Session, now: int)
    requires Conserved(r) && s in r.draining
    ensures Conserved(DoFetch(r, s, now))
  {
    hide DistinctIds;
    var r' := DoFetch(r, s, now);
    var m := r.draining[s];
    var queue := QueueOf(r.queues, m);
    var lost, backlog := Lost(queue, now), Unexpired(queue, now);
    ExpirySplits(queue, now);
    LoggedLists(lost, s);
    LoggedLists(backlog, s);
    LoggedConcat(r.log, AllExpired(lost));
    LoggedConcat(r.log + AllExpired(lost), AllHandedOver(backlog, s));
    forall x ensures Places(r', x) == multiset(r'.published)[x] {
      assert Places(r, x) == multiset(r.published)[x];
      FetchMoves(r, r', m, backlog, lost, x);
    }
    forall n, x | x in QueueOf(r'.queues, n) ensures x.recipient == n {
      assert x in QueueOf(r.queues, n);
    }
  }

  lemma {:induction false} StepConserves(r: Relay, limits: Limits, ttl: int, step: Step)
    requires Conserved(r) && Enabled(r, step)
    ensures Conserved(Next(r, limits, ttl, step))
  {
    hide DoPublish, DoQueue, DoFetch, Refuse;
    match step {
      case Publish(draft, id, now) => PublishConserves(r, Finalize(draft, id, now, ttl));
      case Queue(position, now) => QueueConserves(r, limits, position, now);
      case QueueFails(position) => RefuseConserves(r, position);
      case Fetch(s, now) => FetchConserves(r, s, now);
      case Add(s, m) => assert forall e :: Places(Next(r, limits, ttl, step), e) == Places(r, e);
      case FetchFails(s) => assert forall e :: Places(Next(r, limits, ttl, step), e) == Places(r, e);
      case Leave(s, m) => assert forall e :: Places(Next(r, limits, ttl, step), e) == Places(r, e);
    }
  }

  lemma {:induction false} RunConserves(limits: Limits, ttl: int, steps: seq<Step>)
    ensures Conserved(Run(limits, ttl, steps))
  {
    if steps != [] {
      RunConserves(limits, ttl, steps[..|steps| - 1]);
      var r, step := Run(limits, ttl, steps[..|steps| - 1]), steps[|steps| - 1];
      if Enabled(r, step) { StepConserves(r, limits, ttl, step); }
    }
  }

  /**
   Conservation: after every interleaving each published envelope is in exactly
   one place, once: still on the way to the queue, queued for its recipient, or
   with one entry in the log of fates (sent live, handed to one session,
   expired, refused). Nothing else is in any of them.
   */
  lemma {:induction false} ExactlyOnePlace(limits: Limits, ttl: int, steps: seq<Step>, e: Envelope)
    ensures var r := Run(limits, ttl, steps);
      Places(r, e) == if e in r.published then 1 else 0
  {
    var r := Run(limits, ttl, steps);
    RunConserves(limits, ttl, steps);
    assert Places(r, e) == multiset(r.published)[e];
    if e in r.published { DistinctIdsCountOnce(r.published, e); }
  }

  lemma {:induction false} DistinctIdsCountOnce(s: seq<Envelope>, e: Envelope)
    requires e in s && forall i, j :: 0 <= i < j < |s| ==> s[i].id != s[j].id
    ensures multiset(s)[e] == 1
  {
    var front, last := s[..|s| - 1], s[|s| - 1];
    assert s == front + [last];
    if e == last {
      assert e !in front;
    } else {
      DistinctIdsCountOnce(front, e);
    }
  }

  /** The same envelope is never both queued and logged, and no two log entries speak of one envelope. */
  lemma {:induction false} NeverQueuedAndSent(limits: Limits, ttl: int, steps: seq<Step>, i: nat)
    requires i < |Run(limits, ttl, steps).log|
    ensures var r := Run(limits, ttl, steps);
      && r.log[i].envelope in r.published
      && (forall m :: r.log[i].envelope !in QueueOf(r.queues, m))
      && r.log[i].envelope !in r.inFlight
      && (forall j :: 0 <= j < |r.log| && j != i ==> r.log[j].envelope != r.log[i].envelope)
  {
    var r := Run(limits, ttl, steps);
    var e := r.log[i].envelope;
    RunConserves(limits, ttl, steps);
    ExactlyOnePlace(limits, ttl, steps, e);
    assert Logged(r.log)[i] == e;
    assert e in Logged(r.log);
    forall j | 0 <= j < |r.log| && j != i ensures r.log[j].envelope != e {
      if r.log[j].envelope == e { TwiceCounted(Logged(r.log), if i < j then i else j, if i < j then j else i); }
    }
  }

  /** What justifies a fate at the moment it is logged. */
  ghost predicate Justified(r: Relay, limits: Limits, step: Step, fate: Fate) {
    match fate
    case SentLive(e, receivers) => receivers == Subs(r.subs, e.recipient) && receivers != {}
    case HandedOver(e, s) => step.Fetch? && s == step.session && s in r.draining && r.draining[s] == e.recipient && Live(e, step.now)
    case Expired(e) => (step.Queue? || step.Fetch?) && !Live(e, step.now) && e in QueueOf(r.queues, e.recipient)
    case Refused(e) => e in r.inFlight && (step.QueueFails? || (step.Queue? && !Acceptable(r.queues, limits, e, step.now)))
  }

  lemma {:induction false} StepJustifies(r: Relay, limits: Limits, ttl: int, step: Step)
    requires Conserved(r) && Enabled(r, step)
    ensures var log := Next(r, limits, ttl, step).log;
      r.log <= log && forall i :: |r.log| <= i < |log| ==> Justified(r, limits, step, log[i])
  {
    match step {
      case Queue(position, now) =>
        LostMembers(QueueOf(r.queues, r.inFlight[position].recipient), now);
      case Fetch(s, now) =>
        LostMembers(QueueOf(r.queues, r.draining[s]), now);
      case _ =>
    }
  }

  /** The n-th step logged this fate as the i-th one, and the state before it justifies that. */
  ghost predicate LoggedBy(limits: Limits, ttl: int, steps: seq<Step>, n: nat, i: nat, fate: Fate)
    requires n < |steps|
  {
    var before, after := Run(limits, ttl, steps[..n]), Run(limits, ttl, steps[..n + 1]);
    && Enabled(before, steps[n]) && |before.log| <= i < |after.log| && after.log[i] == fate
    && Justified(before, limits, steps[n], fate)
  }

  lemma {:induction false} FatesAreFinal(limits: Limits, ttl: int, steps: seq<Step>, n: nat)
    requires n <= |steps|
    ensures Run(limits, ttl, steps[..n]).log <= Run(limits, ttl, steps).log
    decreases |steps|
  {
    hide Enabled, Next, Conserved;
    if n == |steps| {
      assert steps[..n] == steps;
    } else {
      var k := |steps| - 1;
      assert steps[..k][..n] == steps[..n];
      FatesAreFinal(limits, ttl, steps[..k], n);
      RunConserves(limits, ttl, steps[..k]);
      if Enabled(Run(limits, ttl, steps[..k]), steps[k]) { StepJustifies(Run(limits, ttl, steps[..k]), limits, ttl, steps[k]); }
    }
  }

  /**
   Over every run fates are final and each was justified when it was logged: an
   envelope is sent live only to a non-empty set of sessions that all listen on
   its mailbox, is handed over unexpired to a session registered for its
   mailbox, is dropped only after its expiry, and is refused only when the
   queue has no room, Bolt does not take the mailbox or the write fails.
   */
  lemma {:induction false} FatesAreJustified(limits: Limits, ttl: int, steps: seq<Step>, i: nat)
    requires i < |Run(limits, ttl, steps).log|
    ensures exists n :: 0 <= n < |steps| && LoggedBy(limits, ttl, steps, n, i, Run(limits, ttl, steps).log[i])
  {
    hide Justified, Enabled, Next, Conserved;
    var k := |steps| - 1;
    var front, step := steps[..k], steps[k];
    var r := Run(limits, ttl, front);
    assert steps[..k + 1] == steps;
    RunConserves(limits, ttl, front);
    if Enabled(r, step) { StepJustifies(r, limits, ttl, step); }
    if i < |r.log| {
      FatesAreJustified(limits, ttl, front, i);
      var n :| 0 <= n < k && LoggedBy(limits, ttl, front, n, i, r.log[i]);
      assert front[..n] == steps[..n] && front[..n + 1] == steps[..n + 1];
      assert LoggedBy(limits, ttl, steps, n, i, r.log[i]);
    } else {
      assert LoggedBy(limits, ttl, steps, k, i, Run(limits, ttl, steps).log[i]);
    }
  }

  lemma {:induction false} LostMembers(queue: seq<Envelope>, now: int)
    ensures forall i :: 0 <= i < |Lost(queue, now)| ==> Lost(queue, now)[i] in queue && !Live(Lost(queue, now)[i], now)
    ensures forall i :: 0 <= i < |Unexpired(queue, now)| ==> Unexpired(queue, now)[i] in queue && Live(Unexpired(queue, now)[i], now)
  {
    FilterMembers(LiveAt(now), queue);
    FilterMembers((e: Envelope) => !Live(e, now), queue);
    assert forall i :: 0 <= i < |Lost(queue, now)| ==> Lost(queue, now)[i] in Lost(queue, now);
    assert forall i :: 0 <= i < |Unexpired(queue, now)| ==> Unexpired(queue, now)[i] in Unexpired(queue, now);
  }
}

/** When messages reach their recipients, and when they are given up. */
module DeliveryTimes {
  import opened Foundations
  import opened QueueModel
  import opened SubscriberSets
  import opened DeliveryModel
  import opened DeliveryConservation

  /** The n-th step published the envelope: a fresh ID, the step's time, an expiry one TTL later, and otherwise the client's draft. */
  predicate PublishedBy(ttl: int, step: Step, e: Envelope) {
    && step.Publish? && e.id == step.id && e.timestamp == step.now && e.expiresAt == step.now + ttl
    && e.sender == step.draft.sender && e.recipient == step.draft.recipient && e.body == step.draft.body
    && e.ciphertext == step.draft.ciphertext && e.nonce == step.draft.nonce && e.signature == step.draft.signature
  }

  /** Every envelope the relay ever holds is some publication, stamped by the relay. */
  lemma {:induction false} StampedByRelay(limits: Limits, ttl: int, steps: seq<Step>, e: Envelope)
    requires e in Run(limits, ttl, steps).published
    ensures exists n :: 0 <= n < |steps| && PublishedBy(ttl, steps[n], e)
    ensures e.expiresAt == e.timestamp + ttl
  {
    var k := |steps| - 1;
    var front, r := steps[..k], Run(limits, ttl, steps[..k]);
    if e in r.published {
      StampedByRelay(limits, ttl, front, e);
      var n :| 0 <= n < k && PublishedBy(ttl, front[n], e);
      assert PublishedBy(ttl, steps[n], e);
    } else {
      assert PublishedBy(ttl, steps[k], e);
    }
  }

  /**
   A publication goes out at once to the sessions that listen on its mailbox,
   if there are any, and waits for the queue if there are none.
   */
  lemma {:induction false} LiveIffListening(r: Relay, limits: Limits, ttl: int, step: Step)
    requires step.Publish? && Enabled(r, step)
    ensures var r', listeners := Next(r, limits, ttl, step), Subs(r.subs, step.draft.recipient);
      exists e :: PublishedBy(ttl, step, e) && r'.published == r.published + [e]
        && (listeners != {} ==> r'.log == r.log + [SentLive(e, listeners)] && r'.inFlight == r.inFlight)
        && (listeners == {} ==> r'.log == r.log && r'.inFlight == r.inFlight + [e])
  {
    var e := Finalize(step.draft, step.id, step.now, ttl);
    assert PublishedBy(ttl, step, e);
  }

  /** The second half of a publication ends its journey: it is queued if there is room under a key Bolt takes and the write works, refused otherwise. */
  lemma {:induction false} QueueSettles(limits: Limits, ttl: int, steps: seq<Step>, position: nat, now: int)
    requires position < |Run(limits, ttl, steps).inFlight|
    ensures var r := Run(limits, ttl, steps);
      var e := r.inFlight[position];
      var queued, failed := Run(limits, ttl, steps + [Queue(position, now)]), Run(limits, ttl, steps + [QueueFails(position)]);
      var room := Fits(Filter(LiveAt(now), QueueOf(r.queues, e.recipient)), e, limits) && 1 <= |e.recipient| <= 32768;
      && e !in queued.inFlight && e !in failed.inFlight
      && (room ==> e in QueueOf(queued.queues, e.recipient))
      && (!room ==> queued.log == r.log + [Refused(e)] && queued.queues == r.queues)
      && failed.log == r.log + [Refused(e)] && failed.queues == r.queues
  {
    var r := Run(limits, ttl, steps);
    var e := r.inFlight[position];
    var a, b := steps + [Queue(position, now)], steps + [QueueFails(position)];
    assert a[..|steps|] == steps && b[..|steps|] == steps;
    ExactlyOnePlace(limits, ttl, steps, e);
    assert e in r.inFlight && multiset(r.inFlight)[e] >= 1;
    RemoveOne(r.inFlight, position);
    assert multiset(r.inFlight[..position] + r.inFlight[position + 1..])[e] == 0;
  }

  /** Where an envelope of a run is: it was published, and queued only for its recipient. */
  lemma {:induction false} QueuedIsPublished(limits: Limits, ttl: int, steps: seq<Step>, m: string, e: Envelope)
    requires e in QueueOf(Run(limits, ttl, steps).queues, m)
    ensures e in Run(limits, ttl, steps).published && e.recipient == m
  {
    var r := Run(limits, ttl, steps);
    RunConserves(limits, ttl, steps);
    assert e.recipient == m;
    assert Places(r, e) == multiset(r.published)[e];
  }

  /** No message is given up as expired before one TTL has passed since it was published. */
  lemma {:induction false} ExpiredOnlyAfterTtl(limits: Limits, ttl: int, steps: seq<Step>, i: nat)
    requires i < |Run(limits, ttl, steps).log| && Run(limits, ttl, steps).log[i].Expired?
    ensures var e := Run(limits, ttl, steps).log[i].envelope;
      exists n :: 0 <= n < |steps| && (steps[n].Queue? || steps[n].Fetch?) && steps[n].now >= e.timestamp + ttl
        && |Run(limits, ttl, steps[..n]).log| <= i < |Run(limits, ttl, steps[..n + 1]).log|
  {
    var e := Run(limits, ttl, steps).log[i].envelope;
    FatesAreJustified(limits, ttl, steps, i);
    NeverQueuedAndSent(limits, ttl, steps, i);
    StampedByRelay(limits, ttl, steps, e);
    var n :| 0 <= n < |steps| && LoggedBy(limits, ttl, steps, n, i, Run(limits, ttl, steps).log[i]);
  }

  /**
   A queued message whose mailbox's backlog is fetched within one TTL of its
   publication is handed over by that fetch, and given up by one that comes
   later; no other step before that takes it out of the queue.
   */
  lemma {:induction false} FetchHandsOver(limits: Limits, ttl: int, steps: seq<Step>, e: Envelope, s: Session, now: int)
    requires var r := Run(limits, ttl, steps);
      e in QueueOf(r.queues, e.recipient) && s in r.draining && r.draining[s] == e.recipient
    ensures var log := Run(limits, ttl, steps + [Fetch(s, now)]).log;
      && (now < e.timestamp + ttl ==> HandedOver(e, s) in log)
      && (now >= e.timestamp + ttl != 0 ==> Expired(e) in log)
  {
    var r, all := Run(limits, ttl, steps), steps + [Fetch(s, now)];
    assert all[..|steps|] == steps && all[|steps|] == Fetch(s, now);
    QueuedIsPublished(limits, ttl, steps, e.recipient, e);
    StampedByRelay(limits, ttl, steps, e);
    var queue := QueueOf(r.queues, e.recipient);
    var lost, backlog := Lost(queue, now), Unexpired(queue, now);
    FilterMembers(LiveAt(now), queue);
    FilterMembers((x: Envelope) => !Live(x, now), queue);
    var log := Run(limits, ttl, all).log;
    assert log == r.log + AllExpired(lost) + AllHandedOver(backlog, s);
    if now < e.timestamp + ttl {
      var j :| 0 <= j < |backlog| && backlog[j] == e;
      assert log[|r.log| + |lost| + j] == HandedOver(e, s);
    } else if e.timestamp + ttl != 0 {
      var j :| 0 <= j < |lost| && lost[j] == e;
      assert log[|r.log| + j] == Expired(e);
    }
  }

  /** Until then it stays: only a fetch for its mailbox, or a later message queued for it after one TTL, takes it out. */
  lemma {:induction false} StaysQueued(limits: Limits, ttl: int, steps: seq<Step>, e: Envelope, step: Step)
    requires e in QueueOf(Run(limits, ttl, steps).queues, e.recipient)
    requires step.Fetch? ==> (step.session in Run(limits, ttl, steps).draining ==> Run(limits, ttl, steps).draining[step.session] != e.recipient)
    requires step.Queue? ==> step.now < e.timestamp + ttl
    ensures e in QueueOf(Run(limits, ttl, steps + [step]).queues, e.recipient)
  {
    var r, all := Run(limits, ttl, steps), steps + [step];
    assert all[..|steps|] == steps && all[|steps|] == step;
    QueuedIsPublished(limits, ttl, steps, e.recipient, e);
    StampedByRelay(limits, ttl, steps, e);
    if step.Queue? { FilterMembers(LiveAt(step.now), QueueOf(r.queues, e.recipient)); }
  }
}

/** Is a mailbox's queue empty while somebody listens on it? As long as no publish is overtaken and no backlog abandoned. */
module DeliveryOnline {
  import opened Foundations
  import opened QueueModel
  import opened SubscriberSets
  import opened DeliveryModel

  predicate Listening(r: Relay, m: string) {
    Subs(r.subs, m) != {} && m !in r.draining.Values
  }

  /** Nothing is retained for a mailbox with a registered listener. */
  ghost predicate Tidy(r: Relay) {
    forall m :: Listening(r, m) ==> QueueOf(r.queues, m) == []
  }

  /** A publish whose snapshot found nobody reaches the queue after a listener has fetched its backlog. */
  predicate Overtaken(r: Relay, limits: Limits, step: Step) {
    && step.Queue? && step.position < |r.inFlight|
    && var e := r.inFlight[step.position];
       Listening(r, e.recipient) && Fits([], e, limits) && StorableKey(e.recipient)
  }

  /** A backlog that could not be fetched stays behind for a mailbox on which nobody else is about to fetch it. */
  ghost predicate Abandoned(r: Relay, step: Step) {
    && step.FetchFails? && step.session in r.draining
    && var m := r.draining[step.session];
       && Subs(r.subs, m) != {} && QueueOf(r.queues, m) != []
       && forall t :: t in r.draining && r.draining[t] == m ==> t == step.session
  }

  ghost predicate LeavesBehind(r: Relay, limits: Limits, step: Step) {
    Overtaken(r, limits, step) || Abandoned(r, step)
  }

  lemma {:induction false} FailedFetchTidyIff(r: Relay, limits: Limits, ttl: int, step: Step)
    requires Tidy(r) && Enabled(r, step) && step.FetchFails?
    ensures Tidy(Next(r, limits, ttl, step)) <==> !Abandoned(r, step)
  {
    var r', s := Next(r, limits, ttl, step), step.session;
    var m := r.draining[s];
    forall n ensures n in r'.draining.Values <==> exists t :: t in r.draining && t != s && r.draining[t] == n {
      if t :| t in r.draining && t != s && r.draining[t] == n { assert r'.draining[t] == n; }
    }
    forall n | n != m ensures Listening(r', n) == Listening(r, n) {
      if t :| t in r.draining && r.draining[t] == n { assert r.draining[t] in r.draining.Values; }
    }
    if Abandoned(r, step) { assert Listening(r', m); }
  }

  /** Exactly then: a step leaves something retained for a listener iff it is an overtaken publish or an abandoned backlog. */
  lemma {:induction false} TidyStepIff(r: Relay, limits: Limits, ttl: int, step: Step)
    requires Tidy(r) && Enabled(r, step)
    ensures Tidy(Next(r, limits, ttl, step)) <==> !LeavesBehind(r, limits, step)
  {
    var r' := Next(r, limits, ttl, step);
    match step {
      case Publish(draft, id, now) =>
        assert forall m :: Listening(r', m) <==> Listening(r, m);
      case Queue(position, now) =>
        var e := r.inFlight[position];
        assert forall m :: m != e.recipient ==> QueueOf(r'.queues, m) == QueueOf(r.queues, m);
        assert Listening(r, e.recipient) ==> Unexpired(QueueOf(r.queues, e.recipient), now) == [];
        if Overtaken(r, limits, step) { assert Listening(r', e.recipient) && QueueOf(r'.queues, e.recipient) != []; }
      case QueueFails(position) =>
      case FetchFails(s) => FailedFetchTidyIff(r, limits, ttl, step);
      case Add(s, mailbox) =>
        assert mailbox in r'.draining.Values by { assert r'.draining[s] == mailbox; }
        forall m | m in r.draining.Values ensures m in r'.draining.Values {
          var t :| t in r.draining && r.draining[t] == m;
          assert r'.draining[t] == m;
        }
        forall m | Listening(r', m) ensures QueueOf(r'.queues, m) == [] {
          assert Listening(r, m);
        }
      case Fetch(s, now) =>
        forall m | m in r.draining.Values && m != r.draining[s] ensures m in r'.draining.Values {
          var t :| t in r.draining && r.draining[t] == m;
          assert r'.draining[t] == m;
        }
        forall m | Listening(r', m) ensures QueueOf(r'.queues, m) == [] {
          assert m != r.draining[s] ==> Listening(r, m);
        }
      case Leave(s, mailbox) =>
        assert forall m :: Listening(r', m) ==> Listening(r, m);
    }
  }

  ghost predicate NeverLeftBehind(limits: Limits, ttl: int, steps: seq<Step>) {
    forall n :: 0 <= n < |steps| ==> !LeavesBehind(Run(limits, ttl, steps[..n]), limits, steps[n])
  }

  lemma {:induction false} TidyRun(limits: Limits, ttl: int, steps: seq<Step>)
    requires NeverLeftBehind(limits, ttl, steps)
    ensures Tidy(Run(limits, ttl, steps))
  {
    if steps != [] {
      var front, step := steps[..|steps| - 1], steps[|steps| - 1];
      assert forall n :: 0 <= n < |front| ==> front[..n] == steps[..n];
      TidyRun(limits, ttl, front);
      if Enabled(Run(limits, ttl, front), step) { TidyStepIff(Run(limits, ttl, front), limits, ttl, step); }
    }
  }

  lemma {:induction false} RunByOne(limits: Limits, ttl: int, steps: seq<Step>, n: nat)
    requires n < |steps|
    ensures var r := Run(limits, ttl, steps[..n]);
      Run(limits, ttl, steps[..n + 1]) == if Enabled(r, steps[n]) then Next(r, limits, ttl, steps[n]) else r
  {
    assert steps[..n + 1][..n] == steps[..n];
  }

  /** A run is tidy all along exactly if no publish is overtaken and no backlog abandoned. */
  lemma {:induction false} TidyRunIff(limits: Limits, ttl: int, steps: seq<Step>)
    ensures (forall n :: 0 <= n <= |steps| ==> Tidy(Run(limits, ttl, steps[..n]))) <==> NeverLeftBehind(limits, ttl, steps)
  {
    hide Tidy, LeavesBehind, Next, Enabled, Run;
    if NeverLeftBehind(limits, ttl, steps) {
      forall n | 0 <= n <= |steps| ensures Tidy(Run(limits, ttl, steps[..n])) {
        assert forall k :: 0 <= k < n ==> steps[..n][..k] == steps[..k] && steps[..n][k] == steps[k];
        TidyRun(limits, ttl, steps[..n]);
      }
    }
    if forall n :: 0 <= n <= |steps| ==> Tidy(Run(limits, ttl, steps[..n])) {
      forall n | 0 <= n < |steps| ensures !LeavesBehind(Run(limits, ttl, steps[..n]), limits, steps[n]) {
        var r := Run(limits, ttl, steps[..n]);
        RunByOne(limits, ttl, steps, n);
        OnlyEnabledLeaveBehind(r, limits, steps[n]);
        assert Tidy(Run(limits, ttl, steps[..n + 1]));
        if Enabled(r, steps[n]) { TidyStepIff(r, limits, ttl, steps[n]); }
      }
    }
  }

  lemma OnlyEnabledLeaveBehind(r: Relay, limits: Limits, step: Step)
    ensures LeavesBehind(r, limits, step) ==> Enabled(r, step)
  {
  }

  lemma {:induction false} RunOfFour(limits: Limits, ttl: int, a: Step, b: Step, c: Step, d: Step, r1: Relay, r2: Relay, r3: Relay)
    requires Enabled(START, a) && r1 == Next(START, limits, ttl, a)
    requires Enabled(r1, b) && r2 == Next(r1, limits, ttl, b)
    requires Enabled(r2, c) && r3 == Next(r2, limits, ttl, c) && Enabled(r3, d)
    ensures Run(limits, ttl, [a, b, c, d]) == Next(r3, limits, ttl, d)
  {
    hide Next, Enabled;
    var none: seq<Step> := [];
    assert Run(limits, ttl, none) == START;
    assert [a][..0] == none && [a, b][..1] == [a] && [a, b, c][..2] == [a, b] && [a, b, c, d][..3] == [a, b, c];
    assert Run(limits, ttl, [a]) == r1;
    assert Run(limits, ttl, [a, b]) == r2;
    assert Run(limits, ttl, [a, b, c]) == r3;
  }

  /** The only envelope on its way reaches an empty queue. */
  lemma {:induction false} QueuedAlone(r: Relay, limits: Limits, e: Envelope, now: int)
    requires r.inFlight == [e] && r.queues == map[] && Fits([], e, limits) && StorableKey(e.recipient)
    ensures DoQueue(r, limits, 0, now) == r.(inFlight := [], queues := map[e.recipient := [e]])
  {
    assert Unexpired([], now) == [] && Lost([], now) == [];
    assert [] + [e] == [e];
    assert r.queues[e.recipient := [e]] == map[e.recipient := [e]];
    assert r.inFlight[..0] + r.inFlight[1..] == [];
    assert r.log + AllExpired([]) == r.log;
  }

  /** A first message for an offline recipient. */
  lemma PublishedOffline(draft: Envelope, id: string, now: int, limits: Limits, ttl: int)
    ensures var e := Finalize(draft, id, now, ttl);
      Next(START, limits, ttl, Publish(draft, id, now)) == Relay(map[draft.recipient := {}], map[], [e], map[], [e], [])
      && (Fits([], e, limits) <==> Fits([], draft, limits))
  {
  }

  /**
   The promise that messages for online recipients are never retained does not
   hold as written: a recipient who comes online between the two halves of a
   publish stays subscribed while the message waits in the queue.
   */
  lemma {:induction false} RetainedWhileOnline(limits: Limits, ttl: int, draft: Envelope, id: string, s: Session, now: int)
    requires Fits([], draft, limits) && StorableKey(draft.recipient)
    ensures var m := draft.recipient;
      var r := Run(limits, ttl, [Publish(draft, id, now), Add(s, m), Fetch(s, now), Queue(0, now)]);
      Listening(r, m) && QueueOf(r.queues, m) == [Finalize(draft, id, now, ttl)]
  {
    var m, e := draft.recipient, Finalize(draft, id, now, ttl);
    PublishedOffline(draft, id, now, limits, ttl);
    var r1 := Next(START, limits, ttl, Publish(draft, id, now));
    var r2 := r1.(subs := map[m := {s}], draining := map[s := m]);
    assert Subs(r1.subs, m) + {s} == {s};
    assert r1.subs[m := {s}] == map[m := {s}];
    var r3 := r2.(draining := map[]);
    assert DoFetch(r2, s, now) == r3 by {
      assert Unexpired([], now) == [] && Lost([], now) == [];
      assert r2.draining - {s} == map[];
    }
    QueuedAlone(r3, limits, e, now);
    RunOfFour(limits, ttl, Publish(draft, id, now), Add(s, m), Fetch(s, now), Queue(0, now), r1, r2, r3);
  }

  /** Nor after a failed fetch: the recipient stays subscribed, and so does the backlog. */
  lemma {:induction false} RetainedAfterFailedFetch(limits: Limits, ttl: int, draft: Envelope, id: string, s: Session, now: int)
    requires Fits([], draft, limits) && StorableKey(draft.recipient)
    ensures var m := draft.recipient;
      var r := Run(limits, ttl, [Publish(draft, id, now), Queue(0, now), Add(s, m), FetchFails(s)]);
      Listening(r, m) && QueueOf(r.queues, m) == [Finalize(draft, id, now, ttl)]
  {
    var m, e := draft.recipient, Finalize(draft, id, now, ttl);
    PublishedOffline(draft, id, now, limits, ttl);
    var r1 := Next(START, limits, ttl, Publish(draft, id, now));
    var r2 := r1.(inFlight := [], queues := map[m := [e]]);
    QueuedAlone(r1, limits, e, now);
    hide DoQueue, Fits, Finalize, Run;
    var r3 := r2.(subs := AddSub(r2.subs, m, s), draining := map[s := m]);
    assert r3.draining - {s} == map[];
    RunOfFour(limits, ttl, Publish(draft, id, now), Queue(0, now), Add(s, m), FetchFails(s), r1, r2, r3);
  }
}

/** The server object behind the atomic steps. */
module DeliveryServer {
  import opened Foundations
  import opened QueueModel
  import opened SubscriberSets
  import opened DeliveryModel
  import QueueStores

  const DEFAULT_TTL := 24 * 60 * 60 * 1_000_000_000

  datatype Options = Options(queueTtl: int, maxQueuedMessages: int, maxQueuedBytes: int)

  function OrDefault(value: int, default: int): (r: int)
    ensures default > 0 ==> r > 0
  {
    if value <= 0 then default else value
  }

  class Server {
    var mailboxes: Subscribers
    const queue: QueueStores.BoltQueueStore
    const ttl: int

    /** Options that are not positive get their defaults, so the queue limits always are. */
    constructor (queue: QueueStores.BoltQueueStore, options: Options)
      modifies queue`limits
      ensures this.queue == queue && mailboxes == map[]
      ensures ttl == OrDefault(options.queueTtl, DEFAULT_TTL)
      ensures queue.limits == Limits(OrDefault(options.maxQueuedMessages, 512), OrDefault(options.maxQueuedBytes, 16 * 1024 * 1024))
    {
      this.queue, ttl := queue, OrDefault(options.queueTtl, DEFAULT_TTL);
      mailboxes := map[];
      new;
      queue.SetLimits(Limits(OrDefault(options.maxQueuedMessages, 512), OrDefault(options.maxQueuedBytes, 16 * 1024 * 1024)));
    }

    method Register(s: Session, mailbox: string)
      modifies this`mailboxes
      ensures mailboxes == AddSub(old(mailboxes), mailbox, s)
    {
      if mailbox !in mailboxes {
        mailboxes := mailboxes[mailbox := {}];
      }
      mailboxes := mailboxes[mailbox := mailboxes[mailbox] + {s}];
    }

    /** works: whether the transaction commits; a failed one leaves the bucket as it was. */
    method FetchBacklog(mailbox: string, now: int, works: bool) returns (backlog: Option<seq<Envelope>>)
      modifies queue`bucket
      ensures works ==>
        var (bucket, unexpired) := Drain(old(queue.bucket), mailbox, now);
        queue.bucket == bucket && backlog == Some(unexpired)
      ensures !works ==> queue.bucket == old(queue.bucket) && backlog == None
    {
      if !works {
        return None;
      }
      var unexpired := queue.Drain(mailbox, now);
      backlog := Some(unexpired);
    }

    method Unregister(s: Session, mailbox: string)
      modifies this`mailboxes
      ensures mailboxes == RemoveSub(old(mailboxes), mailbox, s)
    {
      if mailbox !in mailboxes {
        return;
      }
      mailboxes := mailboxes[mailbox := mailboxes[mailbox] - {s}];
      if mailboxes[mailbox] == {} {
        mailboxes := mailboxes - {mailbox};
        assert mailboxes == old(mailboxes) - {mailbox};
      }
    }

    /** The locked half of publish: who gets the envelope live. */
    method Snapshot(draft: Envelope, id: string, now: int) returns (e: Envelope, receivers: set<Session>)
      modifies this`mailboxes
      ensures e == Finalize(draft, id, now, ttl)
      ensures receivers == Subs(old(mailboxes), e.recipient) && mailboxes == Touch(old(mailboxes), e.recipient)
    {
      e := draft.(id := id, timestamp := now, expiresAt := now + ttl);
      if e.recipient !in mailboxes {
        mailboxes := mailboxes[e.recipient := {}];
      }
      receivers := mailboxes[e.recipient];
    }

    /** The unlocked half, when the snapshot was empty; works: whether the transaction commits. */
    method QueueOffline(e: Envelope, now: int, works: bool) returns (ok: bool)
      modifies queue`bucket
      ensures (queue.bucket, ok) == if works then Enqueue(old(queue.bucket), queue.limits, e, now) else (old(queue.bucket), false)
    {
      if !works {
        return false;
      }
      ok := queue.Enqueue(e, now);
    }
  }
}
