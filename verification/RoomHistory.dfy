/** Room history on disk: merging by message ID, sorting, expiry. */
module RoomHistoryModel {
  import opened Foundations
  import opened Sorting
  import StringOrder

  datatype Record = Record(id: string, sender: string, mailbox: string, body: string, timestamp: int, expiresAt: int)

  predicate RecordLess(a: Record, b: Record) {
    if a.timestamp == b.timestamp then StringOrder.Less(a.id, b.id) else a.timestamp < b.timestamp
  }

  lemma {:induction false} RecordOrder()
    ensures StrictWeakOrder(RecordLess)
  {
    StringOrder.Total();
  }

  predicate Lasting(r: Record, now: int) {
    r.expiresAt == 0 || r.expiresAt > now
  }

  function LastingAt(now: int): Record -> bool {
    (r: Record) => Lasting(r, now)
  }

  function Unexpired(h: seq<Record>, now: int): seq<Record> {
    Filter(LastingAt(now), h)
  }

  function Ids(h: seq<Record>): set<string> {
    set r | r in h && r.id != "" :: r.id
  }

  /** The incoming records that get in: no ID, or an ID seen neither before nor earlier in the batch. */
  function NewRecords(seen: set<string>, incoming: seq<Record>): seq<Record> {
    if incoming == [] then []
    else
      var front, last := incoming[..|incoming| - 1], incoming[|incoming| - 1];
      if last.id != "" && (last.id in seen || last.id in Ids(front)) then NewRecords(seen, front)
      else NewRecords(seen, front) + [last]
  }

  /**
   MergeRoomHistory as a relation between the file before and after: sorting
   leaves the order of equal records open.
   */
  ghost predicate Merged(h: seq<Record>, incoming: seq<Record>, now: int, h': seq<Record>, added: nat) {
    var kept := Unexpired(h, now);
    var new_ := NewRecords(Ids(kept), incoming);
    && added == |new_|
    && if added == 0 then h' == h else SortedPermutation(RecordLess, kept + new_, h')
  }

  /** At most one record per non-empty ID. */
  ghost predicate UniqueIds(h: seq<Record>) {
    forall i, j :: 0 <= i < j < |h| && h[i].id != "" ==> h[i].id != h[j].id
  }

  ghost predicate WellKept(h: seq<Record>) {
    Sorted(RecordLess, h) && UniqueIds(h)
  }

  function Window(h: seq<Record>, since: int, until: int): seq<Record> {
    Filter((r: Record) => (since == 0 || r.timestamp >= since) && (until == 0 || r.timestamp <= until), h)
  }
}

module RoomHistoryProofs {
  import opened Foundations
  import opened Sorting
  import opened RoomHistoryModel
  import StringOrder

  lemma {:induction false} FilterKeepsWellKept(keep: Record -> bool, h: seq<Record>)
    requires WellKept(h)
    ensures WellKept(Filter(keep, h))
  {
    if h != [] {
      var front, last := h[..|h| - 1], h[|h| - 1];
      FilterKeepsWellKept(keep, front);
      FilterMembers(keep, front);
      var f := Filter(keep, front);
      forall i | 0 <= i < |f| ensures !RecordLess(last, f[i]) && (f[i].id != "" ==> f[i].id != last.id) {
        assert f[i] in front;
        var k :| 0 <= k < |front| && front[k] == f[i];
        assert h[k] == f[i] && h[|front|] == last;
      }
    }
  }

  /** A well-kept history is in order of time, records of one time in order of ID, with no ID twice. */
  lemma {:induction false} WellKeptIff(h: seq<Record>)
    ensures WellKept(h) <==>
      forall i, j :: 0 <= i < j < |h| ==>
        && h[i].timestamp <= h[j].timestamp
        && (h[i].timestamp == h[j].timestamp ==> h[i].id == h[j].id || StringOrder.Less(h[i].id, h[j].id))
        && (h[i].id == h[j].id ==> h[i].id == "")
  {
    StringOrder.Total();
    if WellKept(h) {
      forall i, j | 0 <= i < j < |h|
        ensures h[i].timestamp <= h[j].timestamp
        ensures h[i].timestamp == h[j].timestamp ==> h[i].id == h[j].id || StringOrder.Less(h[i].id, h[j].id)
      {
        assert !RecordLess(h[j], h[i]);
      }
    }
  }

  /** What is loaded and what a sweep leaves: the records without an expiry or with a later one, in order. */
  lemma {:induction false} UnexpiredAre(h: seq<Record>, now: int)
    ensures forall x :: x in Unexpired(h, now) <==> x in h && (x.expiresAt == 0 || now < x.expiresAt)
    ensures forall x: Record :: x.expiresAt == 0 || now < x.expiresAt ==> multiset(Unexpired(h, now))[x] == multiset(h)[x]
    ensures WellKept(h) ==> WellKept(Unexpired(h, now))
  {
    FilterMembers(LastingAt(now), h);
    FilterMultiset(LastingAt(now), h);
    if WellKept(h) { FilterKeepsWellKept(LastingAt(now), h); }
  }

  lemma IdsOfAppend(h: seq<Record>, r: Record)
    ensures Ids(h + [r]) == Ids(h) + if r.id == "" then {} else {r.id}
  {
  }

  lemma {:induction false} UniqueAppend(h: seq<Record>, r: Record)
    requires UniqueIds(h) && r.id !in Ids(h)
    ensures UniqueIds(h + [r])
  {
    assert forall i :: 0 <= i < |h| && h[i].id != "" ==> h[i].id in Ids(h);
  }

  lemma {:induction false} NewRecordsFacts(seen: set<string>, incoming: seq<Record>)
    requires "" !in seen
    ensures UniqueIds(NewRecords(seen, incoming))
    ensures forall r :: r in NewRecords(seen, incoming) ==> r in incoming && r.id !in seen
    ensures forall r :: r in incoming && r.id == "" ==> r in NewRecords(seen, incoming)
    ensures Ids(NewRecords(seen, incoming)) == Ids(incoming) - seen
  {
    if incoming != [] {
      var front, last := incoming[..|incoming| - 1], incoming[|incoming| - 1];
      assert incoming == front + [last];
      NewRecordsFacts(seen, front);
      var rest := NewRecords(seen, front);
      IdsOfAppend(front, last);
      IdsOfAppend(rest, last);
      if last.id !in Ids(rest) { UniqueAppend(rest, last); }
      hide Ids, UniqueIds;
    }
  }

  lemma {:induction false} UniquePermutation(a: seq<Record>, b: seq<Record>)
    requires UniqueIds(a) && multiset(a) == multiset(b)
    ensures UniqueIds(b)
  {
    PermutationMembers(a, b);
    forall i, j | 0 <= i < j < |b| && b[i].id != "" ensures b[i].id != b[j].id {
      if b[i].id == b[j].id {
        assert b[i] in a && b[j] in a;
        var k :| 0 <= k < |a| && a[k] == b[i];
        var l :| 0 <= l < |a| && a[l] == b[j];
        assert k == l;
        TwiceCounted(b, i, j);
        OnceOnly(a, k);
      }
    }
  }

  lemma {:induction false} OnceOnly(a: seq<Record>, k: nat)
    requires UniqueIds(a) && k < |a| && a[k].id != ""
    ensures multiset(a)[a[k]] == 1
  {
    assert a == a[..k] + [a[k]] + a[k + 1..];
    forall i | 0 <= i < |a| && i != k ensures a[i] != a[k] {
      assert i < k && a[i].id != "" ==> a[i].id != a[k].id;
      assert k < i ==> a[k].id != a[i].id;
    }
    var tail := a[k + 1..];
    assert forall i :: 0 <= i < |tail| ==> tail[i] == a[k + 1 + i];
  }

  lemma {:induction false} UnionIsUnique(kept: seq<Record>, incoming: seq<Record>)
    requires UniqueIds(kept)
    ensures UniqueIds(kept + NewRecords(Ids(kept), incoming))
  {
    NewRecordsFacts(Ids(kept), incoming);
    var new_ := NewRecords(Ids(kept), incoming);
    forall i | 0 <= i < |kept| && kept[i].id != "" ensures kept[i].id in Ids(kept) {}
    forall j | 0 <= j < |new_| ensures new_[j].id !in Ids(kept) { assert new_[j] in new_; }
  }

  /** Every list a merge writes is sorted by time and ID, with at most one record per ID. */
  lemma {:induction false} MergeKeepsWellKept(h: seq<Record>, incoming: seq<Record>, now: int, h': seq<Record>, added: nat)
    requires WellKept(h) && Merged(h, incoming, now, h', added)
    ensures WellKept(h')
  {
    var kept := Unexpired(h, now);
    FilterKeepsWellKept(LastingAt(now), h);
    UnionIsUnique(kept, incoming);
    if added > 0 { UniquePermutation(kept + NewRecords(Ids(kept), incoming), h'); }
  }

  predicate FirstOfItsId(incoming: seq<Record>, i: nat)
    requires i < |incoming|
  {
    incoming[i].id != "" && incoming[i].id !in Ids(incoming[..i])
  }

  /**
   What a merge does to the records: every unexpired record stays, nothing comes
   from elsewhere, the first record for an ID wins, and added is the growth of
   the unexpired list.
   */
  lemma {:induction false} MergeMeaning(h: seq<Record>, incoming: seq<Record>, now: int, h': seq<Record>, added: nat)
    requires WellKept(h) && Merged(h, incoming, now, h', added)
    ensures forall r :: r in Unexpired(h, now) ==> r in h'
    ensures forall r :: r in h' ==> r in h || r in incoming
    ensures forall r, x :: r in Unexpired(h, now) && r.id != "" && x in h' && x.id == r.id ==> x == r
    ensures forall i :: 0 <= i < |incoming| && FirstOfItsId(incoming, i) && incoming[i].id !in Ids(Unexpired(h, now)) ==> incoming[i] in h'
    ensures added > 0 ==> |h'| == |Unexpired(h, now)| + added
    ensures added == 0 ==> h' == h
  {
    var kept := Unexpired(h, now);
    var new_ := NewRecords(Ids(kept), incoming);
    FilterMembers(LastingAt(now), h);
    NewRecordsFacts(Ids(kept), incoming);
    FirstsAreNew(Ids(kept), incoming);
    MergeKeepsWellKept(h, incoming, now, h', added);
    if added > 0 { PermutationMembers(kept + new_, h'); }
    forall r, x | r in kept && r.id != "" && x in h' && x.id == r.id ensures x == r {
      assert r in h';
      SameIdSameRecord(h', r, x);
    }
  }

  lemma {:induction false} SameIdSameRecord(h: seq<Record>, r: Record, x: Record)
    requires UniqueIds(h) && r in h && x in h && r.id == x.id != ""
    ensures r == x
  {
    var i :| 0 <= i < |h| && h[i] == r;
    var j :| 0 <= j < |h| && h[j] == x;
    assert i == j;
  }

  lemma {:induction false} FirstsAreNew(seen: set<string>, incoming: seq<Record>)
    ensures forall i :: 0 <= i < |incoming| && FirstOfItsId(incoming, i) && incoming[i].id !in seen ==> incoming[i] in NewRecords(seen, incoming)
  {
    if incoming != [] {
      var front, last := incoming[..|incoming| - 1], incoming[|incoming| - 1];
      assert incoming == front + [last];
      FirstsAreNew(seen, front);
      forall i | 0 <= i < |incoming| && FirstOfItsId(incoming, i) && incoming[i].id !in seen
        ensures incoming[i] in NewRecords(seen, incoming)
      {
        if i < |front| { assert front[..i] == incoming[..i] && front[i] == incoming[i]; } else { assert incoming[..i] == front; }
      }
    }
  }

  // ---- merging again ----

  /** A record that a later merge does not recognize. */
  predicate Returns(r: Record, now: int) {
    r.id == "" || !Lasting(r, now)
  }

  function ReturningAt(now: int): Record -> bool {
    (r: Record) => Returns(r, now)
  }

  /** With the surviving new IDs seen as well, only the unrecognized new records are new again. */
  lemma {:induction false} NewAgain(seen: set<string>, incoming: seq<Record>, more: set<string>, now: int)
    requires "" !in seen && "" !in more
    requires forall r :: r in NewRecords(seen, incoming) && r.id != "" ==> (r.id in more <==> Lasting(r, now))
    ensures NewRecords(seen + more, incoming) == Filter(ReturningAt(now), NewRecords(seen, incoming))
  {
    if incoming != [] {
      var front, last := incoming[..|incoming| - 1], incoming[|incoming| - 1];
      assert incoming == front + [last];
      NewAgain(seen, front, more, now);
      if last.id == "" || !(last.id in seen || last.id in Ids(front)) {
        assert NewRecords(seen, incoming) == NewRecords(seen, front) + [last];
        FilterConcat(ReturningAt(now), NewRecords(seen, front), [last]);
        assert last in NewRecords(seen, incoming);
      }
    }
  }

  /**
   Merging the same batch again at the same time adds exactly the added
   records without an ID and those that had already expired: loading drops
   these, so their IDs are new again. The second merge adds nothing if and only
   if there are none.
   */
  lemma {:induction false} MergeAgain(h: seq<Record>, incoming: seq<Record>, now: int, h': seq<Record>, added: nat, h'': seq<Record>, again: nat)
    requires WellKept(h)
    requires Merged(h, incoming, now, h', added) && Merged(h', incoming, now, h'', again)
    ensures var new_ := NewRecords(Ids(Unexpired(h, now)), incoming);
      && again == |Filter(ReturningAt(now), new_)|
      && (again == 0 <==> forall r :: r in new_ ==> r.id != "" && Lasting(r, now))
      && (again == 0 ==> h'' == h')
  {
    var kept := Unexpired(h, now);
    var new_ := NewRecords(Ids(kept), incoming);
    NewRecordsFacts(Ids(kept), incoming);
    FilterMembers(ReturningAt(now), new_);
    if added == 0 {
      assert new_ == [];
    } else {
      var kept' := Unexpired(h', now);
      FilterMembers(LastingAt(now), h);
      FilterMembers(LastingAt(now), h');
      PermutationMembers(kept + new_, h');
      var more := Ids(Unexpired(new_, now));
      FilterMembers(LastingAt(now), new_);
      assert Ids(kept') == Ids(kept) + more by {
        forall x ensures x in Ids(kept') <==> x in Ids(kept) + more {
          if r: Record :| r in kept' && r.id == x && x != "" { assert r in kept || r in new_; }
          if r: Record :| r in kept && r.id == x && x != "" { assert r in h' && r in kept'; }
          if r: Record :| r in Unexpired(new_, now) && r.id == x && x != "" { assert r in h' && r in kept'; }
        }
      }
      forall r | r in new_ && r.id != "" ensures r.id in more <==> Lasting(r, now) {
        if r.id in more {
          var x :| x in Unexpired(new_, now) && x.id == r.id;
          SameIdSameRecord(new_, r, x);
        }
      }
      NewAgain(Ids(kept), incoming, more, now);
    }
    if forall r :: r in new_ ==> !Returns(r, now) {
      FilterNone(ReturningAt(now), new_);
    } else {
      var r :| r in new_ && Returns(r, now);
      assert r in Filter(ReturningAt(now), new_);
    }
  }

  /** A batch of one expired record is added again and again. */
  lemma {:induction false} ExpiredRecordReturns(r: Record, now: int)
    requires r.id != "" && !Lasting(r, now)
    ensures Merged([], [r], now, [r], 1) && Merged([r], [r], now, [r], 1)
  {
    RecordOrder();
    FilterNone(LastingAt(now), [r]);
    assert [r][..0] == [] && Ids([]) == {};
    assert NewRecords({}, [r]) == [r];
  }

  // ---- whole runs ----

  datatype HistoryEvent = MergeBatch(incoming: seq<Record>, now: int) | PurgeExpired(now: int)

  ghost predicate HistoryStep(h: seq<Record>, ev: HistoryEvent, h': seq<Record>) {
    match ev
    case MergeBatch(incoming, now) => exists added: nat :: Merged(h, incoming, now, h', added)
    case PurgeExpired(now) => h' == Unexpired(h, now)
  }

  /** Merges and sweeps, in any order and at any times, keep the file well kept. */
  lemma {:induction false} HistoryStaysWellKept(files: seq<seq<Record>>, events: seq<HistoryEvent>)
    requires |files| == |events| + 1 && files[0] == []
    requires forall k :: 0 <= k < |events| ==> HistoryStep(files[k], events[k], files[k + 1])
    ensures WellKept(files[|events|])
  {
    var n := |events|;
    if n > 0 {
      HistoryStaysWellKept(files[..n], events[..n - 1]);
      assert HistoryStep(files[n - 1], events[n - 1], files[n]);
      match events[n - 1] {
        case MergeBatch(incoming, now) =>
          var added: nat :| Merged(files[n - 1], incoming, now, files[n], added);
          MergeKeepsWellKept(files[n - 1], incoming, now, files[n], added);
        case PurgeExpired(now) =>
          FilterKeepsWellKept(LastingAt(now), files[n - 1]);
      }
    }
  }
}
