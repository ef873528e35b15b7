/**
 What synchronisation does whatever the difference of intervals asks for, and
 two completed synchronisations in which it asks for the wrong decrees.
 */
module SyncLimits {
  import opened Ballots
  import opened PaxosModel
  import opened Intervals
  import opened Sync

  // ---------------------------------------------------------------- every run

  lemma {:induction false} LookupRangesWithin(m: map<DecreeId, Vote>, rs: seq<Interval>, d: DecreeId)
    requires d in LookupRanges(m, rs)
    ensures d in m && LookupRanges(m, rs)[d] == m[d]
    decreases |rs|
  {
    var rest := map c | c in m && Before(rs[0].hi, c) :: m[c];
    if d in LookupRanges(rest, rs[1..]) { LookupRangesWithin(rest, rs[1..], d); }
  }

  /** Every vote held or on its way is one that somebody had at the start. */
  ghost predicate NothingNew(init: seq<Acceptor>, s: SyncState) {
    && (forall a, d :: 0 <= a < |s.acc| && d in s.acc[a].store ==> Originates(init, d, s.acc[a].store[d]))
    && (forall m, d :: m in s.net && m.Give? && d in m.dvs ==> Originates(init, d, m.dvs[d]))
  }

  /** No synchronisation invents a vote. */
  lemma {:induction false} SyncInventsNothing(init: seq<Acceptor>, s: SyncState, steps: seq<SyncStep>)
    requires NothingNew(init, s) && SyncRuns(s, steps)
    ensures NothingNew(init, SyncFinal(s, steps))
    decreases |steps|
  {
    if steps != [] {
      var t := SyncNext(s, steps[0]);
      if steps[0].Take? && steps[0].m.Ask? {
        var m := steps[0].m;
        forall d | d in LookupRanges(s.acc[m.dst].store, m.rqs)
          ensures Originates(init, d, LookupRanges(s.acc[m.dst].store, m.rqs)[d])
        {
          LookupRangesWithin(s.acc[m.dst].store, m.rqs, d);
        }
      }
      SyncInventsNothing(init, t, steps[1..]);
    }
  }

  // ---------------------------------------------------------------- one exchange

  /** A relation on states that holds of every state and itself and still holds after one more step. */
  ghost predicate SyncClosed(r: (SyncState, SyncState) -> bool) {
    && (forall s :: r(s, s))
    && (forall s, t, step :: r(s, t) && SyncEnabled(t, step) ==> r(s, SyncNext(t, step)))
  }

  /** Some run leads from s to t. This is the least closed relation; SyncReachesByRun gives the run. */
  ghost predicate SyncReaches(s: SyncState, t: SyncState) {
    forall r: (SyncState, SyncState) -> bool :: SyncClosed(r) ==> r(s, t)
  }

  ghost predicate HasSyncRun(s: SyncState, t: SyncState) {
    exists steps :: SyncRuns(s, steps) && SyncFinal(s, steps) == t
  }

  lemma {:induction false} SyncAppend(s: SyncState, steps: seq<SyncStep>, step: SyncStep)
    requires SyncRuns(s, steps) && SyncEnabled(SyncFinal(s, steps), step)
    ensures SyncRuns(s, steps + [step]) && SyncFinal(s, steps + [step]) == SyncNext(SyncFinal(s, steps), step)
    decreases |steps|
  {
    if steps == [] {
      assert SyncRuns(SyncNext(s, step), []);
      assert (steps + [step])[1..] == [];
    } else {
      assert (steps + [step])[1..] == steps[1..] + [step];
      SyncAppend(SyncNext(s, steps[0]), steps[1..], step);
    }
  }

  lemma HasSyncRunMore(s: SyncState, t: SyncState, step: SyncStep)
    requires HasSyncRun(s, t) && SyncEnabled(t, step)
    ensures HasSyncRun(s, SyncNext(t, step))
  {
    var steps :| SyncRuns(s, steps) && SyncFinal(s, steps) == t;
    SyncAppend(s, steps, step);
  }

  lemma HasSyncRunHere(s: SyncState)
    ensures HasSyncRun(s, s)
  {
    assert SyncRuns(s, []) && SyncFinal(s, []) == s;
  }

  lemma SyncReachesByRun(s: SyncState, t: SyncState) returns (steps: seq<SyncStep>)
    requires SyncReaches(s, t)
    ensures SyncRuns(s, steps) && SyncFinal(s, steps) == t
  {
    var r: (SyncState, SyncState) -> bool := (u, v) => HasSyncRun(u, v);
    forall u ensures r(u, u) { HasSyncRunHere(u); }
    forall u, v, step | r(u, v) && SyncEnabled(v, step) ensures r(u, SyncNext(v, step)) { HasSyncRunMore(u, v, step); }
    assert SyncClosed(r);
    assert r(s, t);
    steps :| SyncRuns(s, steps) && SyncFinal(s, steps) == t;
  }

  lemma SyncMore(s: SyncState, t: SyncState, step: SyncStep)
    requires SyncReaches(s, t) && SyncEnabled(t, step)
    ensures SyncReaches(s, SyncNext(t, step))
  {
  }

  ghost function AsksFor(b: Acceptor, a: Acceptor): (rqs: seq<Interval>) {
    Diff(Advertised(a), NotWanted(b))
  }

  ghost function Updated(b: Acceptor, a: Acceptor): (r: Acceptor) {
    b.(store := b.store + LookupRanges(a.store, AsksFor(b, a)))
  }

  /** Acceptor a advertises, b asks and stores what it is given. */
  lemma Exchange(s0: SyncState, s: SyncState, a: nat, b: nat) returns (t: SyncState)
    requires SyncReaches(s0, s) && a < |s.acc| && b < |s.acc| && a != b && a !in s.started
    ensures SyncReaches(s0, t)
    ensures t.acc == s.acc[b := Updated(s.acc[b], s.acc[a])] && s.done + {(a, b)} <= t.done && t.started == s.started + {a}
  {
    var adv := Advertise(a, b, Advertised(s.acc[a]));
    var rqs := AsksFor(s.acc[b], s.acc[a]);
    var s1 := SyncNext(s, Start(a));
    SyncMore(s0, s, Start(a));
    assert adv in s1.net;
    var s2 := SyncNext(s1, Take(adv));
    SyncMore(s0, s1, Take(adv));
    if rqs == [] {
      t := s2;
      assert s.acc[b].store + LookupRanges(s.acc[a].store, rqs) == s.acc[b].store;
    } else {
      t := AnswerAsk(s0, s2, a, b, rqs);
    }
  }

  /** Acceptor a answers b's request, and b stores the answer. */
  lemma AnswerAsk(s0: SyncState, s: SyncState, a: nat, b: nat, rqs: seq<Interval>) returns (t: SyncState)
    requires SyncReaches(s0, s) && a < |s.acc| && b < |s.acc| && Ask(b, a, rqs) in s.net
    ensures SyncReaches(s0, t) && t == s.(net := t.net, acc := t.acc, done := s.done + {(a, b)})
    ensures t.acc == s.acc[b := s.acc[b].(store := s.acc[b].store + LookupRanges(s.acc[a].store, rqs))]
  {
    var give := Give(a, b, LookupRanges(s.acc[a].store, rqs));
    SyncMore(s0, s, Take(Ask(b, a, rqs)));
    var u := SyncNext(s, Take(Ask(b, a, rqs)));
    SyncMore(s0, u, Take(give));
    t := SyncNext(u, Take(give));
  }

  // ---------------------------------------------------------------- concrete stores

  lemma SomeMember(a: seq<DecreeId>, b: seq<DecreeId>)
    requires a != [] && forall d :: d in a ==> d in b
    ensures b != []
  {
    assert a[0] in b;
  }

  lemma {:induction false} IncreasingUnique(a: seq<DecreeId>, b: seq<DecreeId>)
    requires Increasing(a) && Increasing(b) && forall d :: d in a <==> d in b
    ensures a == b
    decreases |a|
  {
    if b != [] { SomeMember(b, a); }
    if a != [] {
      SomeMember(a, b);
      assert a[0] in b && b[0] in a;
      assert a[0] == b[0];
      forall d ensures d in a[1..] <==> d in b[1..] {
        assert d in a[1..] <==> d in a && d != a[0];
        assert d in b[1..] <==> d in b && d != b[0];
      }
      IncreasingUnique(a[1..], b[1..]);
      assert a == [a[0]] + a[1..] && b == [b[0]] + b[1..];
    }
  }

  const D0 := DecreeId(0, 0)
  const D1 := DecreeId(0, 1)
  const D2 := DecreeId(0, 2)
  const D3 := DecreeId(0, 3)
  const NEW := Vote(Ballot(0, 0), 10)

  function Fresh(store: map<DecreeId, Vote>): (a: Acceptor) {
    Acceptor(INITIAL_DECREE, Bottom, Bottom, store)
  }

  /** What an acceptor with these decrees advertises and does not ask for. */
  lemma Holds(store: map<DecreeId, Vote>, ds: seq<DecreeId>)
    requires Increasing(ds) && forall d :: d in ds <==> d in store
    ensures Advertised(Fresh(store)) == Group(ds) == NotWanted(Fresh(store))
  {
    IncreasingUnique(SortedKeys(store.Keys), ds);
  }

  lemma Groups()
    ensures Group([D1]) == [Interval(D1, D2)] && Group([D2]) == [Interval(D2, D3)]
    ensures Group([D0, D2]) == [Interval(D0, D1), Interval(D2, D3)]
    ensures Group([D0, D1]) == [Interval(D0, D2)]
  {
    assert [D1][1..] == [] && [D2][1..] == [] && [D0, D2][1..] == [D2] && [D0, D1][1..] == [D1];
    assert GroupFrom(D0, D1, [D2]) == [Interval(D0, D1)] + GroupFrom(D2, D3, []);
    assert GroupFrom(D0, D1, [D1]) == GroupFrom(D0, D2, []);
  }

  lemma GroupOfThree()
    ensures Group([D0, D1, D2]) == [Interval(D0, D3)]
  {
    assert [D0, D1, D2][1..] == [D1, D2] && [D1, D2][1..] == [D2] && [D2][1..] == [];
    assert GroupFrom(D0, D1, [D1, D2]) == GroupFrom(D0, D2, [D2]);
    assert GroupFrom(D0, D2, [D2]) == GroupFrom(D0, D3, []);
  }

  /** Holding decrees on both sides of a gap does not keep an acceptor from asking for the second again. */
  lemma DiffAsksAgain()
    ensures var last, both := [Interval(D2, D3)], [Interval(D0, D1), Interval(D2, D3)];
      Diff(last, both) == last == Diff(both, both)
  {
    var last, both := [Interval(D2, D3)], [Interval(D0, D1), Interval(D2, D3)];
    assert both[1..] == last && last[1..] == [];
    assert Diff(last, both) == [last[0]] + Diff([], both);
    assert Diff(both, both) == Diff(last, both);
  }

  lemma DiffAsksLeft()
    ensures Diff([Interval(D0, D3)], [Interval(D1, D2)]) == [Interval(D0, D1)]
    ensures Diff([Interval(D0, D2)], [Interval(D0, D3)]) == []
  {
    assert [Interval(D0, D3)][1..] == [] && [Interval(D0, D2)][1..] == [];
  }

  lemma LookupOne(m: map<DecreeId, Vote>, d: DecreeId)
    requires d in m
    ensures LookupRanges(m, [Interval(d, Succ(d))]) == map[d := m[d]]
  {
    assert [Interval(d, Succ(d))][1..] == [];
    assert forall c :: Within(c, Interval(d, Succ(d))) ==> c == d;
  }

  lemma AsksForLast(a: map<DecreeId, Vote>, b: map<DecreeId, Vote>)
    requires b.Keys == {D0, D2} && (a.Keys == {D2} || a.Keys == {D0, D2})
    ensures Updated(Fresh(b), Fresh(a)) == Fresh(b[D2 := a[D2]])
  {
    Groups();
    DiffAsksAgain();
    Holds(b, [D0, D2]);
    if a.Keys == {D2} { Holds(a, [D2]); } else { Holds(a, [D0, D2]); }
    LookupOne(a, D2);
    assert b + map[D2 := a[D2]] == b[D2 := a[D2]];
  }

  lemma ExchangeLast(s0: SyncState, s: SyncState, a: nat, b: nat) returns (t: SyncState)
    requires SyncReaches(s0, s) && a < |s.acc| && b < |s.acc| && a != b && a !in s.started
    requires s.acc[a].start == INITIAL_DECREE == s.acc[b].start
    requires s.acc[b].store.Keys == {D0, D2} && (s.acc[a].store.Keys == {D2} || s.acc[a].store.Keys == {D0, D2})
    ensures SyncReaches(s0, t) && s.done + {(a, b)} <= t.done && t.started == s.started + {a}
    ensures t.acc == s.acc[b := s.acc[b].(store := s.acc[b].store[D2 := s.acc[a].store[D2]])]
  {
    t := Exchange(s0, s, a, b);
    AsksForLast(s.acc[a].store, s.acc[b].store);
    UpdatedStore(s.acc[b], s.acc[a]);
  }

  /** An exchange looks at nothing but stores. */
  lemma UpdatedStore(b: Acceptor, a: Acceptor)
    requires a.start == INITIAL_DECREE == b.start
    ensures Updated(b, a) == b.(store := Updated(Fresh(b.store), Fresh(a.store)).store)
  {
    assert Advertised(a) == Advertised(Fresh(a.store)) && NotWanted(b) == NotWanted(Fresh(b.store));
  }

  /**
   An acceptor that holds two separate intervals asks again for the second, and
   overwrites its vote. One copy replaces, in every store, whatever vote the
   others held before the synchronisation.
   */
  lemma SyncForgets(init: seq<Acceptor>) returns (t: SyncState)
    requires |init| == 3 && (forall a :: 0 <= a < 3 ==> init[a].start == INITIAL_DECREE)
    requires init[0].store.Keys == init[1].store.Keys == {D0, D2} && init[2].store.Keys == {D2}
    ensures SyncReaches(Begin(init), t) && Completed(t) && |t.acc| == 3
    ensures forall a :: 0 <= a < 3 ==> D2 in t.acc[a].store && t.acc[a] == init[a].(store := t.acc[a].store)
    ensures forall a :: 0 <= a < 3 ==> t.acc[a].store[D2] == init[2].store[D2]
  {
    var s := Begin(init);
    SyncHere(s);
    var s1 := ExchangeLast(s, s, 2, 0);
    assert s1.acc[0].store.Keys == {D0, D2};
    var s2 := ExchangeLast(s, s1, 0, 1);
    assert s2.acc[1].store.Keys == {D0, D2};
    t := ExchangeLast(s, s2, 1, 0);
    ThreeReported(t);
  }

  lemma SyncHere(s: SyncState)
    ensures SyncReaches(s, s)
  {
  }

  lemma ThreeReported(t: SyncState)
    requires |t.acc| == 3 && {(2, 0), (0, 1), (1, 0)} <= t.done
    ensures Completed(t)
  {
    SubsetSize({1}, Reporters(t, 0));
    SubsetSize({0}, Reporters(t, 1));
    SubsetSize({0}, Reporters(t, 2));
  }

  const FULL := map[D0 := NEW, D1 := NEW, D2 := NEW]
  const MIDDLE := map[D1 := NEW]
  const HALF := map[D0 := NEW, D1 := NEW]

  lemma MiddleAsksLeft()
    ensures AsksFor(Fresh(MIDDLE), Fresh(FULL)) == [Interval(D0, Succ(D0))]
  {
    Groups();
    GroupOfThree();
    DiffAsksLeft();
    Holds(FULL, [D0, D1, D2]);
    Holds(MIDDLE, [D1]);
  }

  lemma FullAsksNothing()
    ensures AsksFor(Fresh(FULL), Fresh(HALF)) == []
  {
    Groups();
    GroupOfThree();
    DiffAsksLeft();
    Holds(FULL, [D0, D1, D2]);
    Holds(HALF, [D0, D1]);
  }

  lemma LeftIsHalf()
    ensures LookupRanges(FULL, [Interval(D0, Succ(D0))]) == map[D0 := NEW]
    ensures MIDDLE + map[D0 := NEW] == HALF
  {
    LookupOne(FULL, D0);
  }

  lemma MiddleUpdated()
    ensures Updated(Fresh(MIDDLE), Fresh(FULL)) == Fresh(HALF)
  {
    MiddleAsksLeft();
    LeftIsHalf();
  }

  lemma MiddleGetsLeft(s0: SyncState, s: SyncState) returns (t: SyncState)
    requires SyncReaches(s0, s) && s.acc == [Fresh(FULL), Fresh(MIDDLE)] && s.started == {}
    ensures SyncReaches(s0, t) && t.acc == [Fresh(FULL), Fresh(HALF)] && (0, 1) in t.done && t.started == {0}
  {
    t := Exchange(s0, s, 0, 1);
    MiddleUpdated();
  }

  lemma FullGetsNothing(s0: SyncState, s: SyncState) returns (t: SyncState)
    requires SyncReaches(s0, s) && s.acc == [Fresh(FULL), Fresh(HALF)] && s.started == {0}
    ensures SyncReaches(s0, t) && t.acc == s.acc && s.done + {(1, 0)} <= t.done
  {
    t := Exchange(s0, s, 1, 0);
    FullAsksNothing();
    assert FULL + map[] == FULL;
  }

  /**
   An acceptor that holds a decree in the middle of an advertised interval never
   asks for the ones after it: they stay with too few acceptors.
   */
  lemma SyncMisses() returns (init: seq<Acceptor>, t: SyncState)
    ensures SyncReaches(Begin(init), t) && Completed(t) && |init| == |t.acc| == 2
    ensures D2 in init[0].store && |Holders(t.acc, D2)| < Quorum(2)
  {
    init := [Fresh(FULL), Fresh(MIDDLE)];
    var s := Begin(init);
    SyncHere(s);
    var s1 := MiddleGetsLeft(s, s);
    t := FullGetsNothing(s, s1);
    TwoReported(t);
  }

  lemma TwoReported(t: SyncState)
    requires t.acc == [Fresh(FULL), Fresh(HALF)] && {(0, 1), (1, 0)} <= t.done
    ensures Completed(t) && |Holders(t.acc, D2)| < Quorum(2)
  {
    SubsetSize({1}, Reporters(t, 0));
    SubsetSize({0}, Reporters(t, 1));
    assert !HeldOrTrimmed(t.acc[1], D2);
    SubsetSize(Holders(t.acc, D2), {0});
  }

  // ---------------------------------------------------------------- nothing to ask for

  ghost predicate NobodyAsks(acc: seq<Acceptor>) {
    forall a, b :: 0 <= a < |acc| && 0 <= b < |acc| ==> AsksFor(acc[b], acc[a]) == []
  }

  ghost predicate AdvertsLeft(s: SyncState, a: nat, k: nat) {
    a < |s.acc| && forall b: nat :: k <= b < |s.acc| && b != a ==> Advertise(a, b, Advertised(s.acc[a])) in s.net
  }

  lemma IdleStart(s0: SyncState, s: SyncState, a: nat) returns (t: SyncState)
    requires SyncReaches(s0, s) && a < |s.acc| && a !in s.started
    ensures SyncReaches(s0, t) && t == s.(net := t.net, started := s.started + {a}) && AdvertsLeft(t, a, 0)
  {
    t := SyncNext(s, Start(a));
    SyncMore(s0, s, Start(a));
  }

  /** Acceptors below k take what a advertised, one after the other, and ask for nothing. */
  lemma {:induction false} IdleRow(s0: SyncState, s: SyncState, a: nat, k: nat) returns (t: SyncState)
    requires SyncReaches(s0, s) && NobodyAsks(s.acc) && AdvertsLeft(s, a, 0) && k <= |s.acc|
    ensures SyncReaches(s0, t) && t == s.(net := t.net, done := t.done) && s.done <= t.done && AdvertsLeft(t, a, k)
    ensures forall b: nat :: b < k && b != a ==> (a, b) in t.done
  {
    t := s;
    if k > 0 {
      t := IdleRow(s0, s, a, k - 1);
      if k - 1 != a {
        var adv := Advertise(a, k - 1, Advertised(t.acc[a]));
        assert adv in t.net && AsksFor(t.acc[k - 1], t.acc[a]) == [];
        SyncMore(s0, t, Take(adv));
        t := SyncNext(t, Take(adv));
      }
    }
  }

  lemma {:induction false} IdleRows(s0: SyncState, s: SyncState, k: nat) returns (t: SyncState)
    requires SyncReaches(s0, s) && NobodyAsks(s.acc) && k <= |s.acc| && s.started == {}
    ensures SyncReaches(s0, t) && t.acc == s.acc && t.started <= Below(k)
    ensures forall a: nat, b: nat :: a < k && b < |s.acc| && b != a ==> (a, b) in t.done
  {
    t := s;
    if k > 0 {
      var u := IdleRows(s0, s, k - 1);
      t := IdleTurn(s0, u, k - 1);
    }
  }

  /** Acceptor a starts, and all others take what it advertised. */
  lemma IdleTurn(s0: SyncState, s: SyncState, a: nat) returns (t: SyncState)
    requires SyncReaches(s0, s) && NobodyAsks(s.acc) && a < |s.acc| && a !in s.started
    ensures SyncReaches(s0, t) && t.acc == s.acc && t.started == s.started + {a} && s.done <= t.done
    ensures forall b: nat :: b < |s.acc| && b != a ==> (a, b) in t.done
  {
    var u := IdleStart(s0, s, a);
    t := IdleRow(s0, u, a, |s.acc|);
  }

  /** Where nobody lacks what another has, a synchronisation completes and changes nothing. */
  lemma IdleSync(acc: seq<Acceptor>) returns (t: SyncState)
    requires NobodyAsks(acc)
    ensures SyncReaches(Begin(acc), t) && t.acc == acc && Completed(t)
  {
    SyncHere(Begin(acc));
    t := IdleRows(Begin(acc), Begin(acc), |acc|);
    forall a | 0 <= a < |t.acc| ensures |Reporters(t, a)| >= |t.acc| / 2 {
      assert Reporters(t, a) == Below(|acc|) - {a};
    }
  }

  lemma SameOneDecree(acc: seq<Acceptor>)
    requires forall a :: 0 <= a < |acc| ==> acc[a].start == INITIAL_DECREE && acc[a].store.Keys == {INITIAL_DECREE}
    ensures NobodyAsks(acc)
  {
    var i := [Interval(D0, D1)];
    assert [D0][1..] == [] && i[1..] == [];
    forall a | 0 <= a < |acc| ensures Advertised(acc[a]) == i == NotWanted(acc[a]) {
      Holds(acc[a].store, [D0]);
      assert Advertised(acc[a]) == Advertised(Fresh(acc[a].store)) && NotWanted(acc[a]) == NotWanted(Fresh(acc[a].store));
    }
    assert Diff(i, i) == [];
  }
}
