/** Time-stamped bit masks, and the "sort by time, then OR together equal times" pass
    that the motion controller and the GPIO backend both run over a vector.

    A mask is the set of its one bits, so `|=` is set union. `std::sort` is not stable:
    it is known here only by its contract `SortOf`, and `CoalesceAnySort` shows that the
    merged list does not depend on which sorted permutation it happened to produce. */
module Timeline {

  datatype Timed<B> = Timed(time: nat, bits: set<B>)

  ghost predicate SortedByTime<B>(s: seq<Timed<B>>) {
    forall i, j :: 0 <= i < j < |s| ==> s[i].time <= s[j].time
  }

  ghost predicate StrictTimes<B>(s: seq<Timed<B>>) {
    forall i, j :: 0 <= i < j < |s| ==> s[i].time < s[j].time
  }

  ghost predicate Ascending(s: seq<nat>) {
    forall i, j :: 0 <= i < j < |s| ==> s[i] < s[j]
  }

  /** `r` is what a sort by time may return for `s`. */
  ghost predicate SortOf<B>(s: seq<Timed<B>>, r: seq<Timed<B>>) {
    SortedByTime(r) && multiset(r) == multiset(s)
  }

  /** Some element of `s` carries bit `b` at time `t`. */
  ghost predicate Requests<B>(s: seq<Timed<B>>, t: nat, b: B) {
    exists e :: e in s && e.time == t && b in e.bits
  }

  ghost predicate HasTime<B>(s: seq<Timed<B>>, t: nat) {
    exists e :: e in s && e.time == t
  }

  /** `m` has one entry per distinct time of `s`, in order, carrying every bit requested then. */
  ghost predicate Coalesced<B(!new)>(s: seq<Timed<B>>, m: seq<Timed<B>>) {
    && StrictTimes(m)
    && (forall t :: HasTime(m, t) <==> HasTime(s, t))
    && (forall t, b :: Requests(m, t, b) <==> Requests(s, t, b))
  }

  // ---------------------------------------------------------------- sorting

  /** Stands for `std::sort` by time; callers may rely on its contract only. */
  method SortByTime<B>(s: seq<Timed<B>>) returns (r: seq<Timed<B>>)
    ensures SortOf(s, r)
  {
    r := [];
    for i := 0 to |s|
      invariant SortOf(s[..i], r)
    {
      assert s[..i + 1] == s[..i] + [s[i]];
      InsertSorts(r, s[i]);
      InsertKeepsElements(r, s[i]);
      r := Insert(r, s[i]);
    }
    assert s[..|s|] == s;
  }

  function Insert<B>(r: seq<Timed<B>>, e: Timed<B>): seq<Timed<B>> {
    if r == [] || r[|r| - 1].time <= e.time then r + [e]
    else Insert(r[..|r| - 1], e) + [r[|r| - 1]]
  }

  lemma {:induction false} InsertSorts<B>(r: seq<Timed<B>>, e: Timed<B>)
    requires SortedByTime(r)
    ensures var q := Insert(r, e);
            && SortedByTime(q) && q != []
            && q[|q| - 1].time == if r != [] && e.time < r[|r| - 1].time then r[|r| - 1].time else e.time
  {
    if r == [] || r[|r| - 1].time <= e.time {
      SortedPush(r, e);
    } else {
      InsertSorts(r[..|r| - 1], e);
      SortedPush(Insert(r[..|r| - 1], e), r[|r| - 1]);
    }
  }

  lemma {:induction false} InsertKeepsElements<B>(r: seq<Timed<B>>, e: Timed<B>)
    ensures multiset(Insert(r, e)) == multiset(r) + multiset{e}
  {
    if r != [] && r[|r| - 1].time > e.time {
      InsertKeepsElements(r[..|r| - 1], e);
      assert r == r[..|r| - 1] + [r[|r| - 1]];
    }
  }

  lemma SortedPush<B>(r: seq<Timed<B>>, e: Timed<B>)
    requires SortedByTime(r) && (r != [] ==> r[|r| - 1].time <= e.time)
    ensures SortedByTime(r + [e])
  {
  }

  // ---------------------------------------------------------------- merging

  /** A list without equal times is its own merge. */
  lemma AlreadyCoalesced<B(!new)>(s: seq<Timed<B>>)
    requires StrictTimes(s)
    ensures Coalesced(s, s)
  {
  }

  lemma CoalescePush<B(!new)>(s: seq<Timed<B>>, m: seq<Timed<B>>, e: Timed<B>)
    requires Coalesced(s, m)
    requires m != [] ==> m[|m| - 1].time < e.time
    ensures Coalesced(s + [e], m + [e])
  {
    var s', m' := s + [e], m + [e];
    forall t ensures HasTime(m', t) <==> HasTime(s', t) {
      HasTimeAppend(s, e, t);
      HasTimeAppend(m, e, t);
    }
    forall t, b ensures Requests(m', t, b) <==> Requests(s', t, b) {
      RequestsAppend(s, e, t, b);
      RequestsAppend(m, e, t, b);
    }
  }

  lemma HasTimeAppend<B>(s: seq<Timed<B>>, e: Timed<B>, t: nat)
    ensures HasTime(s + [e], t) <==> HasTime(s, t) || e.time == t
  {
    if HasTime(s, t) {
      var x :| x in s && x.time == t;
      assert x in s + [e];
    }
    if e.time == t {
      assert e in s + [e];
    }
  }

  lemma RequestsAppend<B>(s: seq<Timed<B>>, e: Timed<B>, t: nat, b: B)
    ensures Requests(s + [e], t, b) <==> Requests(s, t, b) || (e.time == t && b in e.bits)
  {
    if Requests(s, t, b) {
      var x :| x in s && x.time == t && b in x.bits;
      assert x in s + [e];
    }
    if e.time == t && b in e.bits {
      assert e in s + [e];
    }
  }

  lemma CoalesceOr<B(!new)>(s: seq<Timed<B>>, m: seq<Timed<B>>, e: Timed<B>)
    requires Coalesced(s, m) && m != [] && m[|m| - 1].time == e.time
    ensures Coalesced(s + [e], m[..|m| - 1] + [Timed(e.time, m[|m| - 1].bits + e.bits)])
  {
    var p, l := m[..|m| - 1], m[|m| - 1];
    var l' := Timed(e.time, l.bits + e.bits);
    assert m == p + [l];
    var s', m' := s + [e], p + [l'];
    forall t ensures HasTime(m', t) <==> HasTime(s', t) {
      HasTimeAppend(s, e, t);
      HasTimeAppend(p, l, t);
      HasTimeAppend(p, l', t);
    }
    forall t, b ensures Requests(m', t, b) <==> Requests(s', t, b) {
      RequestsAppend(s, e, t, b);
      RequestsAppend(p, l, t, b);
      RequestsAppend(p, l', t, b);
    }
  }

  /** The merge loop: fold an entry into the last one when their times coincide. */
  method MergeEqualTimes<B(!new)>(sorted: seq<Timed<B>>) returns (merged: seq<Timed<B>>)
    requires SortedByTime(sorted)
    ensures Coalesced(sorted, merged)
  {
    merged := [];
    for i := 0 to |sorted|
      invariant Coalesced(sorted[..i], merged)
      invariant merged == [] <==> i == 0
      invariant merged != [] ==> merged[|merged| - 1].time == sorted[i - 1].time
    {
      var e := sorted[i];
      assert sorted[..i + 1] == sorted[..i] + [e];
      if merged != [] && merged[|merged| - 1].time == e.time {
        CoalesceOr(sorted[..i], merged, e);
        merged := merged[..|merged| - 1] + [Timed(e.time, merged[|merged| - 1].bits + e.bits)];
      } else {
        CoalescePush(sorted[..i], merged, e);
        merged := merged + [e];
      }
    }
    assert sorted[..|sorted|] == sorted;
  }

  // ---------------------------------------------------------------- uniqueness

  ghost predicate SameRequests<B(!new)>(a: seq<Timed<B>>, b: seq<Timed<B>>) {
    && (forall t :: HasTime(a, t) <==> HasTime(b, t))
    && (forall t, x :: Requests(a, t, x) <==> Requests(b, t, x))
  }

  lemma PermutationRequests<B(!new)>(s: seq<Timed<B>>, r: seq<Timed<B>>)
    requires multiset(r) == multiset(s)
    ensures SameRequests(s, r)
  {
    assert forall e :: e in s <==> e in multiset(s);
    assert forall e :: e in r <==> e in multiset(r);
  }

  /** The last time of a strict list is the largest it has. */
  lemma LastTimeIsMax<B>(a: seq<Timed<B>>, t: nat)
    requires StrictTimes(a) && a != [] && HasTime(a, t)
    ensures t <= a[|a| - 1].time && HasTime(a, a[|a| - 1].time)
  {
    assert a[|a| - 1] in a;
  }

  lemma LastBits<B>(a: seq<Timed<B>>, x: B)
    requires StrictTimes(a) && a != []
    ensures x in a[|a| - 1].bits <==> Requests(a, a[|a| - 1].time, x)
  {
    assert a[|a| - 1] in a;
  }

  lemma DropLastRequests<B>(a: seq<Timed<B>>)
    requires StrictTimes(a) && a != []
    ensures var l := a[|a| - 1]; var p := a[..|a| - 1];
            && StrictTimes(p)
            && (forall t :: HasTime(p, t) <==> HasTime(a, t) && t != l.time)
            && (forall t, x :: Requests(p, t, x) <==> Requests(a, t, x) && t != l.time)
  {
    var l, p := a[|a| - 1], a[..|a| - 1];
    assert a == p + [l];
    assert forall e :: e in p ==> e.time < l.time;
    forall t ensures HasTime(p, t) <==> HasTime(a, t) && t != l.time {
      HasTimeAppend(p, l, t);
    }
    forall t, x ensures Requests(p, t, x) <==> Requests(a, t, x) && t != l.time {
      RequestsAppend(p, l, t, x);
    }
  }

  /** Strict lists asking for the same bits at the same times are the same list. */
  lemma {:induction false} StrictListsEqual<B(!new)>(a: seq<Timed<B>>, b: seq<Timed<B>>)
    requires StrictTimes(a) && StrictTimes(b) && SameRequests(a, b)
    ensures a == b
    decreases |a|
  {
    if a == [] {
      if b != [] {
        assert b[0] in b;
        assert HasTime(b, b[0].time);
      }
    } else {
      var la := a[|a| - 1];
      assert la in a;
      assert HasTime(b, la.time);
      var lb := b[|b| - 1];
      LastTimeIsMax(b, la.time);
      LastTimeIsMax(a, lb.time);
      forall x ensures x in la.bits <==> x in lb.bits {
        LastBits(a, x);
        LastBits(b, x);
      }
      assert la == lb;
      DropLastRequests(a);
      DropLastRequests(b);
      StrictListsEqual(a[..|a| - 1], b[..|b| - 1]);
      assert a == a[..|a| - 1] + [la];
      assert b == b[..|b| - 1] + [lb];
    }
  }

  /** The merged list does not depend on how the sort ordered equal times: whatever
      sorted permutations two runs produced, coalescing them gives one list. */
  lemma CoalesceAnySort<B(!new)>(s: seq<Timed<B>>, r1: seq<Timed<B>>, r2: seq<Timed<B>>,
                           m1: seq<Timed<B>>, m2: seq<Timed<B>>)
    requires SortOf(s, r1) && SortOf(s, r2)
    requires Coalesced(r1, m1) && Coalesced(r2, m2)
    ensures m1 == m2 && Coalesced(s, m1)
  {
    PermutationRequests(s, r1);
    PermutationRequests(s, r2);
    StrictListsEqual(m1, m2);
  }

  // ---------------------------------------------------------------- projection

  /** The times at which bit `b` is set, in list order. */
  function TimesOf<B(==)>(s: seq<Timed<B>>, b: B): (r: seq<nat>)
  {
    if s == [] then []
    else
      var l := s[|s| - 1];
      TimesOf(s[..|s| - 1], b) + if b in l.bits then [l.time] else []
  }

  lemma {:induction false} TimesOfContains<B>(s: seq<Timed<B>>, b: B, t: nat)
    ensures t in TimesOf(s, b) <==> Requests(s, t, b)
  {
    if s != [] {
      var p, l := s[..|s| - 1], s[|s| - 1];
      assert s == p + [l];
      TimesOfContains(p, b, t);
      RequestsAppend(p, l, t, b);
    }
  }

  lemma {:induction false} TimesOfAscending<B>(s: seq<Timed<B>>, b: B)
    requires StrictTimes(s)
    ensures Ascending(TimesOf(s, b))
  {
    if s != [] {
      var p, l := s[..|s| - 1], s[|s| - 1];
      TimesOfAscending(p, b);
      forall t | t in TimesOf(p, b) ensures t < l.time {
        TimesOfContains(p, b, t);
        var e :| e in p && e.time == t;
      }
      var q, r := TimesOf(p, b), TimesOf(s, b);
      forall i, j | 0 <= i < j < |r| ensures r[i] < r[j] {
        if j == |q| {
          assert r[i] == q[i] && q[i] in q;
        }
      }
    }
  }

  /** Ascending lists with the same members are the same list. */
  lemma {:induction false} AscendingEqual(a: seq<nat>, b: seq<nat>)
    requires Ascending(a) && Ascending(b)
    requires forall t :: t in a <==> t in b
    ensures a == b
    decreases |a|
  {
    assert a != [] ==> a[|a| - 1] in b;
    assert b != [] ==> b[|b| - 1] in a;
    if a != [] && b != [] {
      var la, lb := a[|a| - 1], b[|b| - 1];
      assert la == lb;
      var pa, pb := a[..|a| - 1], b[..|b| - 1];
      assert a == pa + [la] && b == pb + [lb];
      forall t ensures t in pa <==> t in pb {
        assert t in pa <==> t in a && t != la;
        assert t in pb <==> t in b && t != lb;
      }
      AscendingEqual(pa, pb);
    }
  }
}
