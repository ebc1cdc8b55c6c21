/** Room membership lists: a grow-only set of accounts with their earliest known join times. */
module RoomMembers {
  import opened Foundations
  import opened Sorting
  import StringOrder

  datatype Member = Member(account: string, joinedAt: int)

  /** Known join times ascending, unknown ones (zero) last, ties by account. */
  predicate MemberLess(a: Member, b: Member) {
    if a.joinedAt == b.joinedAt then StringOrder.Less(a.account, b.account)
    else if a.joinedAt == 0 then false
    else if b.joinedAt == 0 then true
    else a.joinedAt < b.joinedAt
  }

  lemma {:induction false} MemberOrder()
    ensures StrictWeakOrder(MemberLess)
    ensures forall s: seq<Member> :: Separates(MemberLess, s)
  {
    StringOrder.Total();
  }

  // ---- merging ----

  /** The last position of an account, or -1. */
  function IndexOf(ms: seq<Member>, account: string): (i: int)
    ensures -1 <= i < |ms|
    ensures i >= 0 ==> ms[i].account == account
    ensures forall j :: i < j < |ms| ==> ms[j].account != account
  {
    if ms == [] then -1
    else if ms[|ms| - 1].account == account then |ms| - 1
    else IndexOf(ms[..|ms| - 1], account)
  }

  function Earlier(known: int, heard: int): int {
    if known == 0 || (heard != 0 && heard < known) then heard else known
  }

  function Hear(ms: seq<Member>, m: Member): seq<Member> {
    var i := IndexOf(ms, m.account);
    if m.account == "" then ms
    else if i >= 0 then ms[i := ms[i].(joinedAt := Earlier(ms[i].joinedAt, m.joinedAt))]
    else ms + [m]
  }

  function HearAll(ms: seq<Member>, incoming: seq<Member>): seq<Member> {
    if incoming == [] then ms else Hear(HearAll(ms, incoming[..|incoming| - 1]), incoming[|incoming| - 1])
  }

  function Merge(existing: seq<Member>, incoming: seq<Member>): seq<Member> {
    Sort(MemberLess, HearAll(existing, incoming))
  }

  // ---- what a list says about an account ----

  function Known(ms: seq<Member>, account: string): Option<int> {
    var i := IndexOf(ms, account);
    if i < 0 then None else Some(ms[i].joinedAt)
  }

  /** Two reports about one account; None where there is no report. */
  function Join(a: Option<int>, b: Option<int>): Option<int> {
    if a.None? then b else if b.None? then a else Some(Earlier(a.value, b.value))
  }

  /** Joining reports is a semilattice. */
  lemma JoinIsSemilattice(a: Option<int>, b: Option<int>, c: Option<int>)
    ensures Join(a, a) == a
    ensures Join(a, b) == Join(b, a)
    ensures Join(Join(a, b), c) == Join(a, Join(b, c))
  {
  }

  ghost predicate Distinct(ms: seq<Member>) {
    && (forall i :: 0 <= i < |ms| ==> ms[i].account != "")
    && (forall i, j :: 0 <= i < j < |ms| ==> ms[i].account != ms[j].account)
  }

  /** The form every stored list has. */
  ghost predicate Canonical(ms: seq<Member>) {
    Distinct(ms) && Sorted(MemberLess, ms)
  }

  lemma {:induction false} HearIsJoin(ms: seq<Member>, m: Member)
    requires Distinct(ms)
    ensures Distinct(Hear(ms, m))
    ensures forall a :: Known(Hear(ms, m), a) == if a == m.account && a != "" then Join(Known(ms, a), Some(m.joinedAt)) else Known(ms, a)
  {
    var r := Hear(ms, m);
    forall a ensures Known(r, a) == if a == m.account && a != "" then Join(Known(ms, a), Some(m.joinedAt)) else Known(ms, a) {
      var i, j := IndexOf(ms, a), IndexOf(r, a);
      if i >= 0 { assert r[i].account == a; }
      if j >= 0 && j < |ms| { assert ms[j].account == a; }
    }
  }

  /** What a list of reports says about one account. */
  function Reported(incoming: seq<Member>, account: string): Option<int> {
    if incoming == [] then None
    else
      var rest, m := Reported(incoming[..|incoming| - 1], account), incoming[|incoming| - 1];
      if m.account == account && account != "" then Join(rest, Some(m.joinedAt)) else rest
  }

  lemma {:induction false} HearAllIsJoin(ms: seq<Member>, incoming: seq<Member>)
    requires Distinct(ms)
    ensures Distinct(HearAll(ms, incoming))
    ensures forall a :: Known(HearAll(ms, incoming), a) == Join(Known(ms, a), Reported(incoming, a))
  {
    if incoming != [] {
      var front, m := incoming[..|incoming| - 1], incoming[|incoming| - 1];
      HearAllIsJoin(ms, front);
      HearIsJoin(HearAll(ms, front), m);
      forall a ensures Known(HearAll(ms, incoming), a) == Join(Known(ms, a), Reported(incoming, a)) {
        JoinIsSemilattice(Known(ms, a), Reported(front, a), Some(m.joinedAt));
      }
    }
  }

  lemma {:induction false} KnownIffMember(ms: seq<Member>, a: string, t: int)
    requires Distinct(ms)
    ensures Known(ms, a) == Some(t) <==> Member(a, t) in ms
    ensures Known(ms, a).Some? <==> exists m :: m in ms && m.account == a
  {
    var i := IndexOf(ms, a);
    if m: Member :| m in ms && m.account == a {
      var j :| 0 <= j < |ms| && ms[j] == m;
      assert j == i;
    }
    if i >= 0 { assert ms[i] == Member(a, ms[i].joinedAt) && ms[i] in ms; }
  }

  lemma {:induction false} DistinctCounts(ms: seq<Member>, m: Member)
    requires Distinct(ms)
    ensures multiset(ms)[m] == if m in ms then 1 else 0
  {
    if ms != [] {
      var front, last := ms[..|ms| - 1], ms[|ms| - 1];
      assert ms == front + [last];
      DistinctCounts(front, m);
      if m == last { assert m !in front; }
    }
  }

  /** In a canonical list known join times ascend, unknown ones come last, and accounts with the same time are in string order. */
  lemma {:induction false} CanonicalIff(ms: seq<Member>)
    ensures Canonical(ms) <==>
      && Distinct(ms)
      && forall i, j :: 0 <= i < j < |ms| ==>
           if ms[i].joinedAt == ms[j].joinedAt then StringOrder.Less(ms[i].account, ms[j].account)
           else ms[j].joinedAt == 0 || 0 != ms[i].joinedAt < ms[j].joinedAt
  {
    StringOrder.Total();
    if Distinct(ms) {
      forall i, j | 0 <= i < j < |ms|
        ensures !MemberLess(ms[j], ms[i]) <==>
          if ms[i].joinedAt == ms[j].joinedAt then StringOrder.Less(ms[i].account, ms[j].account)
          else ms[j].joinedAt == 0 || 0 != ms[i].joinedAt < ms[j].joinedAt
      {
        assert ms[i].account != ms[j].account;
      }
    }
  }

  /** Lists without repeats that say the same are permutations of each other. */
  lemma {:induction false} SameKnownSameMembers(a: seq<Member>, b: seq<Member>)
    requires Distinct(a) && Distinct(b) && forall x :: Known(a, x) == Known(b, x)
    ensures multiset(a) == multiset(b)
  {
    forall m: Member ensures multiset(a)[m] == multiset(b)[m] {
      DistinctCounts(a, m);
      DistinctCounts(b, m);
      KnownIffMember(a, m.account, m.joinedAt);
      KnownIffMember(b, m.account, m.joinedAt);
    }
  }

  /** A canonical list is determined by what it says. */
  lemma {:induction false} CanonicalIsUnique(a: seq<Member>, b: seq<Member>)
    requires Canonical(a) && Canonical(b) && forall x :: Known(a, x) == Known(b, x)
    ensures a == b
  {
    MemberOrder();
    SameKnownSameMembers(a, b);
    SortedUnique(MemberLess, a, b);
  }

  lemma {:induction false} PermutationKeeps(a: seq<Member>, b: seq<Member>)
    requires Distinct(a) && multiset(a) == multiset(b)
    ensures Distinct(b) && forall x :: Known(b, x) == Known(a, x)
  {
    PermutationMembers(a, b);
    forall i, j | 0 <= i < j < |b| ensures b[i].account != b[j].account {
      if b[i].account == b[j].account {
        assert b[i] in a && b[j] in a;
        KnownIffMember(a, b[i].account, b[i].joinedAt);
        KnownIffMember(a, b[j].account, b[j].joinedAt);
        DistinctCounts(a, b[i]);
        TwiceCounted(b, i, j);
      }
    }
    forall i | 0 <= i < |b| ensures b[i].account != "" { assert b[i] in a; }
    forall x ensures Known(b, x) == Known(a, x) {
      if Known(a, x).Some? { KnownIffMember(a, x, Known(a, x).value); KnownIffMember(b, x, Known(a, x).value); }
      if Known(b, x).Some? { KnownIffMember(a, x, Known(b, x).value); KnownIffMember(b, x, Known(b, x).value); }
    }
  }

  /**
   Merge is the join of what both sides say, in canonical form. With
   JoinIsSemilattice this makes merging idempotent, commutative and associative.
   */
  lemma {:induction false} MergeIsJoin(existing: seq<Member>, incoming: seq<Member>)
    requires Distinct(existing)
    ensures Canonical(Merge(existing, incoming))
    ensures forall a :: Known(Merge(existing, incoming), a) == Join(Known(existing, a), Reported(incoming, a))
  {
    MemberOrder();
    HearAllIsJoin(existing, incoming);
    SortSorts(MemberLess, HearAll(existing, incoming));
    PermutationKeeps(HearAll(existing, incoming), Merge(existing, incoming));
  }

  lemma {:induction false} ReportedOfDistinct(ms: seq<Member>, a: string)
    requires Distinct(ms)
    ensures Reported(ms, a) == Known(ms, a)
  {
    if ms != [] {
      var front, last := ms[..|ms| - 1], ms[|ms| - 1];
      ReportedOfDistinct(front, a);
      KnownIffMember(front, last.account, 0);
    }
  }

  /** Normalizing a canonical list changes nothing. */
  lemma {:induction false} NormalizeFixes(ms: seq<Member>)
    requires Canonical(ms)
    ensures Merge([], ms) == ms
  {
    MergeIsJoin([], ms);
    forall a ensures Known(Merge([], ms), a) == Known(ms, a) { ReportedOfDistinct(ms, a); }
    CanonicalIsUnique(Merge([], ms), ms);
  }

  /** Re-sending a list changes nothing, the order of two lists does not matter, and grouping does not either. */
  lemma {:induction false} MergeLaws(a: seq<Member>, b: seq<Member>, c: seq<Member>)
    requires Canonical(a) && Canonical(b) && Canonical(c)
    ensures Merge(a, a) == a
    ensures Merge(a, b) == Merge(b, a)
    ensures Merge(Merge(a, b), c) == Merge(a, Merge(b, c))
  {
    MergeIsJoin(a, a);
    MergeIsJoin(a, b);
    MergeIsJoin(b, a);
    MergeIsJoin(b, c);
    MergeIsJoin(Merge(a, b), c);
    MergeIsJoin(a, Merge(b, c));
    forall x
      ensures Known(Merge(a, a), x) == Known(a, x)
      ensures Known(Merge(a, b), x) == Known(Merge(b, a), x)
      ensures Known(Merge(Merge(a, b), c), x) == Known(Merge(a, Merge(b, c)), x)
    {
      ReportedOfDistinct(a, x);
      ReportedOfDistinct(b, x);
      ReportedOfDistinct(c, x);
      ReportedOfDistinct(Merge(b, c), x);
      JoinIsSemilattice(Known(a, x), Known(b, x), Known(c, x));
    }
    CanonicalIsUnique(Merge(a, a), a);
    CanonicalIsUnique(Merge(a, b), Merge(b, a));
    CanonicalIsUnique(Merge(Merge(a, b), c), Merge(a, Merge(b, c)));
  }
}
