/** The two loops that keep member lists: the service's merge and the store's in-place normalization. */
module RoomLists {
  import opened Foundations
  import opened Sorting
  import opened RoomMembers

  /** sort.Slice over members: the order ties nothing, so any sorting gives this list. */
  method SortMembers(a: array<Member>, n: nat)
    requires n <= a.Length
    modifies a
    ensures a[..n] == Sort(MemberLess, old(a[..n])) && a[n..] == old(a[n..])
  {
    var sorted := Sort(MemberLess, a[..n]);
    MemberOrder();
    SortSorts(MemberLess, a[..n]);
    PermutationMembers(sorted, a[..n]);
    forall i | 0 <= i < n { a[i] := sorted[i]; }
    assert a[..n] == sorted;
  }

  lemma {:induction false} AnySortingIsSort(s: seq<Member>, r: seq<Member>)
    requires SortedPermutation(MemberLess, s, r)
    ensures r == Sort(MemberLess, s)
  {
    MemberOrder();
    SortSorts(MemberLess, s);
    SeparatedSortings(MemberLess, s, r, Sort(MemberLess, s));
  }

  /** The index map knows the last position of every account in the list. */
  ghost predicate Indexes(index: map<string, nat>, list: seq<Member>) {
    && (forall a :: a in index <==> IndexOf(list, a) >= 0)
    && (forall a :: a in index ==> index[a] == IndexOf(list, a))
  }

  lemma {:induction false} IndexesAppend(index: map<string, nat>, list: seq<Member>, m: Member)
    requires Indexes(index, list)
    ensures Indexes(index[m.account := |list|], list + [m])
  {
    assert (list + [m])[..|list|] == list;
  }

  method BuildIndex(list: seq<Member>) returns (index: map<string, nat>)
    ensures Indexes(index, list)
  {
    index := map[];
    var i := 0;
    while i < |list|
      invariant 0 <= i <= |list|
      invariant Indexes(index, list[..i])
    {
      assert list[..i + 1] == list[..i] + [list[i]];
      IndexesAppend(index, list[..i], list[i]);
      index := index[list[i].account := i];
      i := i + 1;
    }
    assert list[..i] == list;
  }

  method HearMember(list: seq<Member>, index: map<string, nat>, member: Member)
    returns (list': seq<Member>, index': map<string, nat>)
    requires Indexes(index, list)
    ensures list' == Hear(list, member) && Indexes(index', list')
  {
    list', index' := list, index;
    if member.account == "" {
      return;
    }
    if member.account in index {
      var idx := index[member.account];
      if list[idx].joinedAt == 0 || (member.joinedAt != 0 && member.joinedAt < list[idx].joinedAt) {
        list' := list[idx := list[idx].(joinedAt := member.joinedAt)];
      }
      forall a ensures IndexOf(list', a) == IndexOf(list, a) { SameAccounts(list, list', a); }
      return;
    }
    IndexesAppend(index, list, member);
    index' := index[member.account := |list|];
    list' := list + [member];
  }

  method MergeRoomMembers(existing: seq<Member>, incoming: seq<Member>) returns (merged: array<Member>)
    ensures fresh(merged) && merged[..] == Merge(existing, incoming)
  {
    var list := existing;
    var index := BuildIndex(existing);
    var i := 0;
    while i < |incoming|
      invariant 0 <= i <= |incoming|
      invariant list == HearAll(existing, incoming[..i]) && Indexes(index, list)
    {
      assert incoming[..i + 1][..i] == incoming[..i];
      list, index := HearMember(list, index, incoming[i]);
      i := i + 1;
    }
    assert incoming[..i] == incoming;
    merged := new Member[|list|](j requires 0 <= j < |list| => list[j]);
    assert merged[..merged.Length] == list;
    SortMembers(merged, merged.Length);
    assert merged[..] == merged[..merged.Length];
  }

  lemma {:induction false} SameAccounts(s: seq<Member>, r: seq<Member>, a: string)
    requires |s| == |r| && forall j :: 0 <= j < |s| ==> s[j].account == r[j].account
    ensures IndexOf(r, a) == IndexOf(s, a)
  {
    var i, j := IndexOf(s, a), IndexOf(r, a);
    assert i >= 0 ==> r[i].account == a;
    assert j >= 0 ==> s[j].account == a;
  }

  /** A map agrees with what a list of reports says. */
  ghost predicate Agrees(seen: map<string, Member>, incoming: seq<Member>) {
    && (forall a :: a in seen <==> Reported(incoming, a).Some?)
    && (forall a :: a in seen ==> a != "" && seen[a] == Member(a, Reported(incoming, a).value))
  }

  method CollectMembers(members: seq<Member>) returns (seen: map<string, Member>)
    ensures Agrees(seen, members) && |seen| <= |members|
  {
    seen := map[];
    var i := 0;
    while i < |members|
      invariant 0 <= i <= |members|
      invariant Agrees(seen, members[..i]) && |seen| <= i
    {
      var member := members[i];
      assert members[..i + 1][..i] == members[..i];
      if member.account != "" {
        if member.account !in seen || seen[member.account].joinedAt == 0
           || (member.joinedAt != 0 && member.joinedAt < seen[member.account].joinedAt)
        {
          PutSize(seen, member.account, member);
          seen := seen[member.account := member];
        }
      }
      i := i + 1;
    }
    assert members[..i] == members;
  }

  lemma {:induction false} AppendNew(ms: seq<Member>, m: Member)
    requires Distinct(ms) && m.account != "" && Known(ms, m.account) == None
    ensures Distinct(ms + [m])
    ensures forall x :: Known(ms + [m], x) == if x == m.account then Some(m.joinedAt) else Known(ms, x)
  {
    assert Hear(ms, m) == ms + [m];
    HearIsJoin(ms, m);
  }

  lemma NothingKnown()
    ensures Distinct([]) && forall x :: Known([], x) == None
  {
  }

  method WriteMembers(seen: map<string, Member>, a: array<Member>) returns (n: nat)
    requires |seen| <= a.Length && forall x :: x in seen ==> x != "" && seen[x].account == x
    modifies a
    ensures n <= a.Length && a[n..] == old(a[n..])
    ensures Distinct(a[..n]) && forall x :: Known(a[..n], x) == if x in seen then Some(seen[x].joinedAt) else None
  {
    hide IndexOf, Known, Distinct;
    NothingKnown();
    n := 0;
    assert a[..n] == [];
    var left := seen.Keys;
    while left != {}
      invariant left <= seen.Keys && n + |left| == |seen|
      invariant n <= a.Length && a[n..] == old(a[n..])
      invariant Distinct(a[..n])
      invariant forall x :: Known(a[..n], x) == if x in seen && x !in left then Some(seen[x].joinedAt) else None
      decreases left
    {
      var x :| x in left;
      ghost var before, tail := a[..n], a[n + 1..];
      assert tail == a[n..][1..] == old(a[n + 1..]);
      assert |left - {x}| == |left| - 1;
      left := left - {x};
      a[n] := seen[x];
      assert a[n + 1..] == tail && a[..n] == before && a[..n + 1] == before + [seen[x]];
      AppendNew(before, seen[x]);
      n := n + 1;
    }
  }

  /** normalizeMembers: collect, overwrite the front of the same array in map order, sort it there. */
  method NormalizeMembers(a: array<Member>) returns (n: nat)
    modifies a
    ensures n <= a.Length && a[..n] == Merge([], old(a[..])) && a[n..] == old(a[n..])
  {
    ghost var before := a[..];
    var seen := CollectMembers(a[..]);
    n := WriteMembers(seen, a);
    ghost var written := a[..n];
    SortMembers(a, n);
    HearAllIsJoin([], before);
    SameKnownSameMembers(written, HearAll([], before));
    MemberOrder();
    SortSorts(MemberLess, written);
    AnySortingIsSort(HearAll([], before), Sort(MemberLess, written));
  }
}
