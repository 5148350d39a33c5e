/** The birthday list: this month's members, copied and sorted so that those
    whose voucher is still unused come before those already used. */
module BirthdayList {
  import opened Types
  import opened Seqs

  /** The sort comparator: negative puts `a` first, positive puts `b` first,
      zero keeps the input order. */
  function Compare(a: Member, b: Member): (c: int)
    ensures c == 0 <==> a.isUsed == b.isUsed
    ensures c < 0 <==> !a.isUsed && b.isUsed
    ensures c > 0 <==> a.isUsed && !b.isUsed
  {
    if a.isUsed == b.isUsed then 0 else if a.isUsed then 1 else -1
  }

  /** Inserts `x`, which came before every element of `s` in the input, in
      front of the first element it does not sort after. */
  function Insert(x: Member, s: seq<Member>): seq<Member> {
    if s == [] || Compare(x, s[0]) <= 0 then [x] + s
    else [s[0]] + Insert(x, s[1..])
  }

  /** The birthday list's order: a sorted copy under `Compare`. Since 2019 the ECMAScript sort is stable,
      and for a consistent comparator a stable sort has exactly one result;
      insertion sort, written here, is one way to compute it. The sort works
      on a copy, and sequences are values, so the input is never changed. */
  function SortedMembers(s: seq<Member>): seq<Member> {
    if s == [] then [] else Insert(s[0], SortedMembers(s[1..]))
  }

  predicate Unused(m: Member) { !m.isUsed }
  predicate Used(m: Member) { m.isUsed }

  /** The reference ordering: the unused members in input order, then the
      used members in input order. */
  function UnusedFirst(s: seq<Member>): seq<Member> {
    Filter(s, Unused) + Filter(s, Used)
  }

  /** A used member inserted into an ordered list goes after all the unused
      ones and before the used ones. */
  lemma {:induction false} InsertUsed(x: Member, u: seq<Member>, v: seq<Member>)
    requires x.isUsed
    requires forall i :: 0 <= i < |u| ==> !u[i].isUsed
    requires forall i :: 0 <= i < |v| ==> v[i].isUsed
    ensures Insert(x, u + v) == u + [x] + v
  {
    if u == [] {
      assert u + v == v;
    } else {
      assert (u + v)[0] == u[0];
      assert (u + v)[1..] == u[1..] + v;
      InsertUsed(x, u[1..], v);
    }
  }

  /** The insertion step for a used head: it lands between the groups. */
  lemma SortStepUsed(x: Member, t: seq<Member>)
    requires x.isUsed
    ensures Insert(x, UnusedFirst(t)) == UnusedFirst([x] + t)
  {
    var u, v := Filter(t, Unused), Filter(t, Used);
    FilterAllKept(t, Unused);
    FilterAllKept(t, Used);
    var a, b := Filter([x] + t, Unused), Filter([x] + t, Used);
    InsertUsed(x, u, v);
    FilterCons(x, t, Unused);
    FilterCons(x, t, Used);
    assert a == [] + u;
    assert b == [x] + v;
    Assoc3(u, [x], v);
  }

  lemma Assoc3(a: seq<Member>, b: seq<Member>, c: seq<Member>)
    ensures a + b + c == a + (b + c)
  {
  }

  /** An unused member is inserted at the front. */
  lemma InsertUnused(x: Member, r: seq<Member>)
    requires !x.isUsed
    ensures Insert(x, r) == [x] + r
  {
  }

  /** The insertion step for an unused head: it goes to the front. */
  lemma SortStepUnused(x: Member, t: seq<Member>)
    requires !x.isUsed
    ensures Insert(x, UnusedFirst(t)) == UnusedFirst([x] + t)
  {
    var u, v := Filter(t, Unused), Filter(t, Used);
    var a, b := Filter([x] + t, Unused), Filter([x] + t, Used);
    InsertUnused(x, u + v);
    FilterCons(x, t, Unused);
    FilterCons(x, t, Used);
    assert a == [x] + u;
    assert b == [] + v;
    Assoc3([x], u, v);
  }

  /** The sort computes exactly the reference ordering. */
  lemma {:induction false} SortIsStablePartition(s: seq<Member>)
    ensures SortedMembers(s) == UnusedFirst(s)
  {
    if s != [] {
      var x, t := s[0], s[1..];
      SortIsStablePartition(t);
      assert SortedMembers(s) == Insert(x, UnusedFirst(t));
      assert s == [x] + t;
      if x.isUsed {
        SortStepUsed(x, t);
      } else {
        SortStepUnused(x, t);
      }
    }
  }

  /** The sorted list is a permutation of its input, so the header count and
      the empty-state message agree with the input. */
  lemma SortIsPermutation(s: seq<Member>)
    ensures multiset(SortedMembers(s)) == multiset(s)
    ensures |SortedMembers(s)| == |s|
    ensures SortedMembers(s) == [] <==> s == []
  {
    SortIsStablePartition(s);
    FilterSplit(s, Unused, Used);
    var u, v := Filter(s, Unused), Filter(s, Used);
    assert multiset(u + v) == multiset(u) + multiset(v);
    if s != [] {
      assert s[0] in multiset(s);
    }
  }

  /** No used member comes before an unused one. */
  lemma SortPutsUnusedFirst(s: seq<Member>)
    ensures forall i, j :: 0 <= i < j < |SortedMembers(s)| ==> !(SortedMembers(s)[i].isUsed && !SortedMembers(s)[j].isUsed)
  {
    var r := SortedMembers(s);
    SortIsStablePartition(s);
    var u, v := Filter(s, Unused), Filter(s, Used);
    FilterAllKept(s, Unused);
    FilterAllKept(s, Used);
    forall i, j | 0 <= i < j < |r| ensures !(r[i].isUsed && !r[j].isUsed) {
      if j < |u| {
        assert r[j] == u[j];
      } else {
        assert r[j] == v[j - |u|];
        if i >= |u| {
          assert r[i] == v[i - |u|];
        }
      }
    }
  }

  /** Each group keeps its input order. */
  lemma SortKeepsGroupOrder(s: seq<Member>)
    ensures Filter(SortedMembers(s), Unused) == Filter(s, Unused)
    ensures Filter(SortedMembers(s), Used) == Filter(s, Used)
  {
    SortIsStablePartition(s);
    var u, v := Filter(s, Unused), Filter(s, Used);
    FilterAllKept(s, Unused);
    FilterAllKept(s, Used);
    FilterConcat(u, v, Unused);
    FilterConcat(u, v, Used);
    FilterKeepsAll(u, Unused);
    FilterKeepsAll(v, Used);
    FilterDropsAll(u, Used);
    FilterDropsAll(v, Unused);
    assert u + [] == u;
    assert [] + v == v;
  }

  /** What the birthday list promises: a permutation of its input (so the
      header count and the empty-state message agree with the input), every
      unused member before every used one, and each group in input order. */
  lemma BirthdayOrdering(s: seq<Member>)
    ensures multiset(SortedMembers(s)) == multiset(s)
    ensures |SortedMembers(s)| == |s|
    ensures SortedMembers(s) == [] <==> s == []
    ensures forall i, j :: 0 <= i < j < |SortedMembers(s)| ==> !(SortedMembers(s)[i].isUsed && !SortedMembers(s)[j].isUsed)
    ensures Filter(SortedMembers(s), Unused) == Filter(s, Unused)
    ensures Filter(SortedMembers(s), Used) == Filter(s, Used)
  {
    SortIsPermutation(s);
    SortPutsUnusedFirst(s);
    SortKeepsGroupOrder(s);
  }
}
