/**
 Synchronisation of a group of acceptors: everybody advertises the decrees it
 holds, asks for the ones it lacks, and stores what it is given. No acceptor
 changes its ballot, and no proposal is going on.
 */
module Sync {
  import opened Ballots
  import opened PaxosModel
  import opened Intervals

  datatype Message =
    | Advertise(src: nat, dst: nat, ds: seq<Interval>)
    | Ask(src: nat, dst: nat, rqs: seq<Interval>)
    | Give(src: nat, dst: nat, dvs: map<DecreeId, Vote>)

  /**
   `done` holds (a, b) when b has reported to the process that waits for a's
   decrees to spread; `started` holds the acceptors that have been told to start,
   which happens once to each.
   */
  datatype SyncState = SyncState(acc: seq<Acceptor>, net: set<Message>, done: set<(nat, nat)>, started: set<nat>)

  datatype SyncStep = Start(a: nat) | Take(m: Message)

  // ---------------------------------------------------------------- what is held

  predicate IsLeast(d: DecreeId, s: set<DecreeId>) {
    d in s && forall c :: c in s ==> AtOrBefore(d, c)
  }

  lemma {:induction false} LeastExists(s: set<DecreeId>)
    requires s != {}
    ensures exists d :: IsLeast(d, s)
    decreases |s|
  {
    var d :| d in s;
    assert forall c :: c in s ==> c == d || c in s - {d};
    if s - {d} == {} {
      assert IsLeast(d, s);
    } else {
      LeastExists(s - {d});
      var e :| IsLeast(e, s - {d});
      assert Before(e, d) ==> IsLeast(e, s);
      assert !Before(e, d) ==> IsLeast(d, s);
    }
  }

  /** The decrees of a store in increasing order. */
  ghost function SortedKeys(s: set<DecreeId>): (r: seq<DecreeId>)
    ensures Increasing(r) && forall d :: d in r <==> d in s
    decreases |s|
  {
    if s == {} then [] else
      LeastExists(s);
      var d :| IsLeast(d, s);
      [d] + SortedKeys(s - {d})
  }

  ghost function Advertised(a: Acceptor): (r: seq<Interval>) {
    Group(SortedKeys(a.store.Keys))
  }

  /** The decrees an acceptor does not ask for: those it holds, and all it has trimmed. */
  ghost function NotWanted(a: Acceptor): (r: seq<Interval>) {
    var held := Group(SortedKeys(set d | d in a.store.Keys && !Before(d, a.start)));
    if Before(INITIAL_DECREE, a.start) then [Interval(INITIAL_DECREE, a.start)] + held
    else Group(SortedKeys(a.store.Keys))
  }

  predicate HeldOrTrimmed(a: Acceptor, d: DecreeId) {
    d in a.store || Before(d, a.start)
  }

  lemma AdvertisedMembers(a: Acceptor)
    ensures Separated(Advertised(a)) && forall d :: Member(d, Advertised(a)) <==> d in a.store
  {
    GroupMembers(SortedKeys(a.store.Keys));
  }

  lemma NotWantedMembers(a: Acceptor)
    ensures Ordered(NotWanted(a)) && forall d :: Member(d, NotWanted(a)) <==> HeldOrTrimmed(a, d)
  {
    var keys := set d | d in a.store.Keys && !Before(d, a.start);
    var held := Group(SortedKeys(keys));
    GroupMembers(SortedKeys(keys));
    GroupMembers(SortedKeys(a.store.Keys));
    if Before(INITIAL_DECREE, a.start) {
      var trimmed := Interval(INITIAL_DECREE, a.start);
      forall i | 0 <= i < |held| ensures AtOrBefore(a.start, held[i].lo) {
        assert Within(held[i].lo, held[i]);
        assert Member(held[i].lo, held);
      }
      forall d ensures Member(d, NotWanted(a)) <==> HeldOrTrimmed(a, d) {
        MemberCons(d, trimmed, held);
        assert Member(d, held) <==> d in keys;
      }
    }
  }

  // ---------------------------------------------------------------- what is given

  /** Each range is looked up in what lies strictly beyond the end of the range before it. */
  function LookupRanges(m: map<DecreeId, Vote>, rs: seq<Interval>): (r: map<DecreeId, Vote>)
    decreases |rs|
  {
    if rs == [] then map[] else
      (map d | d in m && Within(d, rs[0]) :: m[d])
      + LookupRanges(map d | d in m && Before(rs[0].hi, d) :: m[d], rs[1..])
  }

  lemma SeparatedTail(d: DecreeId, rs: seq<Interval>)
    requires Separated(rs) && rs != []
    ensures Separated(rs[1..])
    ensures Member(d, rs) <==> Within(d, rs[0]) || Member(d, rs[1..])
    ensures Member(d, rs[1..]) ==> Before(rs[0].hi, d)
  {
    assert rs == [rs[0]] + rs[1..];
    MemberCons(d, rs[0], rs[1..]);
    if Member(d, rs[1..]) {
      var i :| 0 <= i < |rs[1..]| && Within(d, rs[1..][i]);
      assert rs[1..][i] == rs[i + 1];
    }
  }

  /** On ranges with gaps between them, the entries found are those in some range. */
  lemma {:induction false} LookupRangesFinds(m: map<DecreeId, Vote>, rs: seq<Interval>, d: DecreeId)
    requires Separated(rs)
    ensures d in LookupRanges(m, rs) <==> d in m && Member(d, rs)
    ensures d in LookupRanges(m, rs) ==> LookupRanges(m, rs)[d] == m[d]
    decreases |rs|
  {
    if rs != [] {
      SeparatedTail(d, rs);
      LookupRangesFinds(map d | d in m && Before(rs[0].hi, d) :: m[d], rs[1..], d);
    }
  }

  lemma ConsSeparated(x: Interval, rest: seq<Interval>)
    requires Before(x.lo, x.hi) && Separated(rest) && (rest != [] ==> Before(x.hi, rest[0].lo))
    ensures Separated([x] + rest)
  {
    var r := [x] + rest;
    forall i, j | 0 <= i < j < |r| ensures Before(r[i].hi, r[j].lo) {
      if i == 0 && j > 1 { assert Before(rest[0].hi, rest[j - 1].lo) && Before(rest[0].lo, rest[0].hi); }
    }
  }

  /** What is asked for keeps a gap between neighbours, as looking ranges up needs. */
  lemma {:induction false} DiffSeparated(xs: seq<Interval>, ys: seq<Interval>)
    requires Separated(xs) && Ordered(ys)
    ensures Separated(Diff(xs, ys))
    ensures Diff(xs, ys) != [] ==> xs != [] && AtOrBefore(xs[0].lo, Diff(xs, ys)[0].lo)
    decreases |xs| + |ys|
  {
    if ys != [] && xs != [] {
      var x, y := xs[0], ys[0];
      SeparatedTail(x.lo, xs);
      assert Ordered(ys[1..]);
      if Before(x.lo, y.hi) && Before(y.lo, x.hi) && !Before(x.lo, y.lo) && !AtOrBefore(x.hi, y.hi) {
        ConsSeparated(Interval(y.hi, x.hi), xs[1..]);
        DiffSeparated([Interval(y.hi, x.hi)] + xs[1..], ys[1..]);
      } else {
        DiffSeparated(xs[1..], ys);
        var rest := Diff(xs[1..], ys);
        assert rest != [] ==> Before(x.hi, xs[1].lo);
        var head := if Before(x.lo, y.hi) && Before(y.lo, x.hi) then Interval(x.lo, y.lo) else x;
        if Before(head.lo, head.hi) { ConsSeparated(head, rest); }
      }
    }
  }

  // ---------------------------------------------------------------- steps

  function Adverts(n: nat, a: nat, ds: seq<Interval>): (r: set<Message>) {
    set b | b in Below(n) && b != a :: Advertise(a, b, ds)
  }

  ghost predicate SyncEnabled(s: SyncState, step: SyncStep) {
    match step
    case Start(a) => a < |s.acc| && a !in s.started
    case Take(m) => m in s.net && m.src < |s.acc| && m.dst < |s.acc|
  }

  ghost function SyncNext(s: SyncState, step: SyncStep): (r: SyncState)
    requires SyncEnabled(s, step)
  {
    match step
    case Start(a) => s.(net := s.net + Adverts(|s.acc|, a, Advertised(s.acc[a])), started := s.started + {a})
    case Take(m) =>
      var net := s.net - {m};
      match m
      case Advertise(a, b, ds) =>
        var rqs := Diff(ds, NotWanted(s.acc[b]));
        if rqs == [] then s.(net := net, done := s.done + {(a, b)})
        else s.(net := net + {Ask(b, a, rqs)})
      case Ask(b, a, rqs) =>
        s.(net := net + {Give(a, b, LookupRanges(s.acc[a].store, rqs))})
      case Give(a, b, dvs) =>
        s.(net := net, acc := s.acc[b := s.acc[b].(store := s.acc[b].store + dvs)], done := s.done + {(a, b)})
  }

  /** Whoever takes an advertisement asks for all it lacks, on the lists at hand. */
  ghost predicate AsksEnough(s: SyncState, step: SyncStep) {
    step.Take? && step.m.Advertise? && step.m.dst < |s.acc| ==> Enough(step.m.ds, NotWanted(s.acc[step.m.dst]))
  }

  /** Moreover it asks for nothing it holds. */
  ghost predicate AsksRight(s: SyncState, step: SyncStep) {
    step.Take? && step.m.Advertise? && step.m.dst < |s.acc| ==> Exact(step.m.ds, NotWanted(s.acc[step.m.dst]))
  }

  ghost predicate SyncRuns(s: SyncState, steps: seq<SyncStep>)
    decreases |steps|
  {
    steps == [] || (SyncEnabled(s, steps[0]) && SyncRuns(SyncNext(s, steps[0]), steps[1..]))
  }

  ghost predicate AllAskEnough(s: SyncState, steps: seq<SyncStep>)
    requires SyncRuns(s, steps)
    decreases |steps|
  {
    steps == [] || (AsksEnough(s, steps[0]) && AllAskEnough(SyncNext(s, steps[0]), steps[1..]))
  }

  ghost predicate AllAskRight(s: SyncState, steps: seq<SyncStep>)
    requires SyncRuns(s, steps)
    decreases |steps|
  {
    steps == [] || (AsksRight(s, steps[0]) && AllAskRight(SyncNext(s, steps[0]), steps[1..]))
  }

  ghost function SyncFinal(s: SyncState, steps: seq<SyncStep>): (r: SyncState)
    requires SyncRuns(s, steps)
    decreases |steps|
  {
    if steps == [] then s else SyncFinal(SyncNext(s, steps[0]), steps[1..])
  }

  /** Half of the other acceptors have reported for each acceptor. */
  ghost predicate Completed(s: SyncState) {
    forall a :: 0 <= a < |s.acc| ==> |Reporters(s, a)| >= |s.acc| / 2
  }

  ghost function Reporters(s: SyncState, a: nat): (r: set<nat>) {
    set b | b in Below(|s.acc|) && b != a && (a, b) in s.done
  }

  // ---------------------------------------------------------------- invariant

  ghost predicate Originates(init: seq<Acceptor>, d: DecreeId, v: Vote) {
    exists c :: 0 <= c < |init| && d in init[c].store && init[c].store[d] == v
  }

  /** Whatever a held at first, b has by now. */
  ghost predicate Arrived(init: seq<Acceptor>, s: SyncState, a: nat, b: nat) {
    && a < |init| && b < |s.acc|
    && forall d :: d in init[a].store ==> HeldOrTrimmed(s.acc[b], d)
  }

  ghost predicate MessageOk(init: seq<Acceptor>, s: SyncState, m: Message) {
    && m.src < |s.acc| && m.dst < |s.acc| && |init| == |s.acc|
    && match m
       case Advertise(a, b, ds) => Separated(ds) && forall d :: d in init[a].store ==> Member(d, ds)
       case Ask(b, a, rqs) =>
         Separated(rqs) && forall d :: d in init[a].store ==> Member(d, rqs) || HeldOrTrimmed(s.acc[b], d)
       case Give(a, b, dvs) =>
         && (forall d {:trigger Originates(init, d, dvs[d])} :: d in dvs ==> Originates(init, d, dvs[d]))
         && forall d :: d in init[a].store ==> d in dvs || HeldOrTrimmed(s.acc[b], d)
  }

  /** Every acceptor keeps its decrees, and holds no vote that nobody had. */
  ghost predicate StoresOk(init: seq<Acceptor>, s: SyncState) {
    && |s.acc| == |init|
    && (forall a :: 0 <= a < |init| ==> s.acc[a].start == init[a].start)
    && (forall a, d :: 0 <= a < |init| && d in init[a].store ==> d in s.acc[a].store)
    && (forall a, d {:trigger Originates(init, d, s.acc[a].store[d])} ::
          0 <= a < |init| && d in s.acc[a].store ==> Originates(init, d, s.acc[a].store[d]))
  }

  ghost predicate SyncInv(init: seq<Acceptor>, s: SyncState) {
    && StoresOk(init, s)
    && (forall m :: m in s.net ==> MessageOk(init, s, m))
    && (forall a, b :: (a, b) in s.done ==> Arrived(init, s, a, b))
  }

  /** Stores only gain decrees. */
  ghost predicate StoresGrow(s: SyncState, t: SyncState) {
    && |t.acc| == |s.acc|
    && forall a, d :: 0 <= a < |s.acc| && HeldOrTrimmed(s.acc[a], d) ==> HeldOrTrimmed(t.acc[a], d)
  }

  lemma SyncInvCarries(init: seq<Acceptor>, s: SyncState, t: SyncState)
    requires SyncInv(init, s) && StoresOk(init, t) && StoresGrow(s, t)
    requires forall m :: m in t.net ==> m in s.net || MessageOk(init, t, m)
    requires forall a, b :: (a, b) in t.done ==> (a, b) in s.done || Arrived(init, t, a, b)
    ensures SyncInv(init, t)
  {
    forall m | m in t.net ensures MessageOk(init, t, m) {
      assert m in s.net ==> MessageOk(init, s, m);
    }
    forall a, b | (a, b) in t.done ensures Arrived(init, t, a, b) {
      assert (a, b) in s.done ==> Arrived(init, s, a, b);
    }
  }

  lemma StartKeeps(init: seq<Acceptor>, s: SyncState, a: nat)
    requires SyncInv(init, s) && SyncEnabled(s, Start(a))
    ensures SyncInv(init, SyncNext(s, Start(a)))
  {
    var t := SyncNext(s, Start(a));
    AdvertisedMembers(s.acc[a]);
    SyncInvCarries(init, s, t);
  }

  /** What b asks for when it takes an advertisement: with what it has, all that was advertised. */
  lemma AskedOrHeld(b: Acceptor, ds: seq<Interval>, d: DecreeId)
    requires Separated(ds) && Enough(ds, NotWanted(b)) && Member(d, ds)
    ensures Member(d, Diff(ds, NotWanted(b))) || HeldOrTrimmed(b, d)
  {
    NotWantedMembers(b);
    EnoughExactly(ds, NotWanted(b));
    assert EnoughAt(d, Diff(ds, NotWanted(b)), ds, NotWanted(b));
  }

  lemma AdvertiseKeeps(init: seq<Acceptor>, s: SyncState, m: Message)
    requires SyncInv(init, s) && m in s.net && m.Advertise? && AsksEnough(s, Take(m)) && SyncEnabled(s, Take(m))
    ensures SyncInv(init, SyncNext(s, Take(m)))
  {
    var t := SyncNext(s, Take(m));
    var b := m.dst;
    assert MessageOk(init, s, m);
    NotWantedMembers(s.acc[b]);
    DiffSeparated(m.ds, NotWanted(s.acc[b]));
    forall d | Member(d, m.ds) ensures Member(d, Diff(m.ds, NotWanted(s.acc[b]))) || HeldOrTrimmed(s.acc[b], d) {
      AskedOrHeld(s.acc[b], m.ds, d);
    }
    assert forall d :: !Member(d, []);
    SyncInvCarries(init, s, t);
  }

  lemma AskKeeps(init: seq<Acceptor>, s: SyncState, m: Message)
    requires SyncInv(init, s) && m in s.net && m.Ask? && SyncEnabled(s, Take(m))
    ensures SyncInv(init, SyncNext(s, Take(m)))
  {
    var t := SyncNext(s, Take(m));
    var dvs := LookupRanges(s.acc[m.dst].store, m.rqs);
    assert MessageOk(init, s, m);
    forall d ensures d in dvs <==> d in s.acc[m.dst].store && Member(d, m.rqs) {
      LookupRangesFinds(s.acc[m.dst].store, m.rqs, d);
    }
    forall d | d in dvs ensures Originates(init, d, dvs[d]) {
      LookupRangesFinds(s.acc[m.dst].store, m.rqs, d);
    }
    SyncInvCarries(init, s, t);
  }

  lemma GiveKeeps(init: seq<Acceptor>, s: SyncState, m: Message)
    requires SyncInv(init, s) && m in s.net && m.Give? && SyncEnabled(s, Take(m))
    ensures SyncInv(init, SyncNext(s, Take(m)))
  {
    var t := SyncNext(s, Take(m));
    assert MessageOk(init, s, m);
    SyncInvCarries(init, s, t);
  }

  lemma SyncStepKeeps(init: seq<Acceptor>, s: SyncState, step: SyncStep)
    requires SyncInv(init, s) && SyncEnabled(s, step) && AsksEnough(s, step)
    ensures SyncInv(init, SyncNext(s, step))
  {
    match step
    case Start(a) => StartKeeps(init, s, a);
    case Take(m) =>
      if m.Advertise? { AdvertiseKeeps(init, s, m); }
      else if m.Ask? { AskKeeps(init, s, m); }
      else { GiveKeeps(init, s, m); }
  }

  lemma {:induction false} SyncRunKeeps(init: seq<Acceptor>, s: SyncState, steps: seq<SyncStep>)
    requires SyncInv(init, s) && SyncRuns(s, steps) && AllAskEnough(s, steps)
    ensures SyncInv(init, SyncFinal(s, steps))
    decreases |steps|
  {
    if steps != [] {
      SyncStepKeeps(init, s, steps[0]);
      SyncRunKeeps(init, SyncNext(s, steps[0]), steps[1..]);
    }
  }

  ghost function Holders(acc: seq<Acceptor>, d: DecreeId): (r: set<nat>) {
    set a | a in Below(|acc|) && HeldOrTrimmed(acc[a], d)
  }

  lemma HeldByMajority(init: seq<Acceptor>, t: SyncState, a: nat, d: DecreeId)
    requires SyncInv(init, t) && a < |init| && d in init[a].store && |Reporters(t, a)| >= |init| / 2
    ensures |Holders(t.acc, d)| >= Quorum(|init|)
  {
    var told := Reporters(t, a) + {a};
    forall b | b in told ensures b in Holders(t.acc, d) {
      if b != a { assert Arrived(init, t, a, b); }
    }
    SubsetSize(told, Holders(t.acc, d));
  }

  function Begin(init: seq<Acceptor>): (s: SyncState) {
    SyncState(init, {}, {}, {})
  }

  /**
   Once every acceptor's decrees have reached half of the others, each decree
   anyone held is held, or trimmed, by a majority, everyone still holds its
   decrees, and every vote held is one that somebody had at the start.
   */
  lemma SyncSpreads(init: seq<Acceptor>, steps: seq<SyncStep>)
    requires SyncRuns(Begin(init), steps) && AllAskEnough(Begin(init), steps) && Completed(SyncFinal(Begin(init), steps))
    ensures var t := SyncFinal(Begin(init), steps);
      && StoresOk(init, t)
      && forall a, d :: 0 <= a < |init| && d in init[a].store ==> |Holders(t.acc, d)| >= Quorum(|init|)
  {
    SyncRunKeeps(init, Begin(init), steps);
    forall a, d | 0 <= a < |init| && d in init[a].store
      ensures |Holders(SyncFinal(Begin(init), steps).acc, d)| >= Quorum(|init|)
    {
      HeldByMajority(init, SyncFinal(Begin(init), steps), a, d);
    }
  }

  // ---------------------------------------------------------------- an acceptor's own votes

  /** Nobody asks for, or is given, a decree it held at the start. */
  ghost predicate OwnOk(init: seq<Acceptor>, s: SyncState) {
    && |s.acc| == |init|
    && (forall a, d :: 0 <= a < |init| && d in init[a].store ==>
          d in s.acc[a].store && s.acc[a].store[d] == init[a].store[d])
    && (forall m, d :: m in s.net && m.Ask? && m.src < |init| && Member(d, m.rqs) ==> d !in init[m.src].store)
    && (forall m, d :: m in s.net && m.Give? && m.dst < |init| && d in m.dvs ==> d !in init[m.dst].store)
  }

  lemma AsksOnlyWhatItLacks(b: Acceptor, ds: seq<Interval>, d: DecreeId)
    requires Separated(ds) && Exact(ds, NotWanted(b))
    ensures Enough(ds, NotWanted(b))
    ensures Member(d, Diff(ds, NotWanted(b))) ==> !HeldOrTrimmed(b, d)
  {
    var ys := NotWanted(b);
    NotWantedMembers(b);
    DiffExactly(ds, ys);
    EnoughExactly(ds, ys);
    forall c ensures EnoughAt(c, Diff(ds, ys), ds, ys) { assert RightAt(c, Diff(ds, ys), ds, ys); }
    assert RightAt(d, Diff(ds, ys), ds, ys);
  }

  lemma OwnStepKeeps(init: seq<Acceptor>, s: SyncState, step: SyncStep)
    requires SyncInv(init, s) && OwnOk(init, s) && SyncEnabled(s, step) && AsksRight(s, step)
    ensures OwnOk(init, SyncNext(s, step)) && AsksEnough(s, step)
  {
    if step.Take? && step.m.Advertise? {
      assert MessageOk(init, s, step.m);
      AsksOnlyWhatItLacks(s.acc[step.m.dst], step.m.ds, INITIAL_DECREE);
      forall d | Member(d, Diff(step.m.ds, NotWanted(s.acc[step.m.dst]))) ensures d !in init[step.m.dst].store {
        AsksOnlyWhatItLacks(s.acc[step.m.dst], step.m.ds, d);
      }
    } else if step.Take? && step.m.Ask? {
      assert MessageOk(init, s, step.m);
      forall d | d in LookupRanges(s.acc[step.m.dst].store, step.m.rqs) ensures Member(d, step.m.rqs) {
        LookupRangesFinds(s.acc[step.m.dst].store, step.m.rqs, d);
      }
    }
  }

  /** An acceptor's own votes survive a synchronisation in which nobody asks for what it holds. */
  lemma {:induction false} OwnVotesSurvive(init: seq<Acceptor>, s: SyncState, steps: seq<SyncStep>)
    requires SyncInv(init, s) && OwnOk(init, s) && SyncRuns(s, steps) && AllAskRight(s, steps)
    ensures OwnOk(init, SyncFinal(s, steps)) && AllAskEnough(s, steps)
    decreases |steps|
  {
    if steps != [] {
      OwnStepKeeps(init, s, steps[0]);
      SyncStepKeeps(init, s, steps[0]);
      OwnVotesSurvive(init, SyncNext(s, steps[0]), steps[1..]);
    }
  }

  // ---------------------------------------------------------------- which runs ask for enough

  /** Whoever takes the advertisement neither knows nor asks for some decree in it. */
  ghost predicate Misses(s: SyncState, step: SyncStep) {
    && step.Take? && step.m.Advertise? && step.m.dst < |s.acc|
    && exists d :: Member(d, step.m.ds) && Missed(s.acc[step.m.dst], step.m.ds, d)
  }

  ghost predicate Missed(b: Acceptor, ds: seq<Interval>, d: DecreeId) {
    !HeldOrTrimmed(b, d) && !Member(d, Diff(ds, NotWanted(b)))
  }

  ghost predicate NothingMissed(s: SyncState, steps: seq<SyncStep>)
    requires SyncRuns(s, steps)
    decreases |steps|
  {
    steps == [] || (!Misses(s, steps[0]) && NothingMissed(SyncNext(s, steps[0]), steps[1..]))
  }

  ghost predicate AdvertsSeparated(s: SyncState) {
    forall m :: m in s.net && m.Advertise? ==> Separated(m.ds)
  }

  lemma AsksEnoughExactly(s: SyncState, step: SyncStep)
    requires AdvertsSeparated(s) && SyncEnabled(s, step)
    ensures AsksEnough(s, step) <==> !Misses(s, step)
  {
    if step.Take? && step.m.Advertise? {
      var b := s.acc[step.m.dst];
      var ds, ys := step.m.ds, NotWanted(b);
      NotWantedMembers(b);
      EnoughExactly(ds, ys);
      forall d ensures EnoughAt(d, Diff(ds, ys), ds, ys) <==> !(Member(d, ds) && Missed(b, ds, d)) {
        assert Member(d, ys) <==> HeldOrTrimmed(b, d);
      }
      if Misses(s, step) {
        var d :| Member(d, ds) && Missed(b, ds, d);
        assert !EnoughAt(d, Diff(ds, ys), ds, ys);
      }
    }
  }

  /** In any run, every difference asks for enough exactly when no advertised decree is missed. */
  lemma {:induction false} SyncMissesExactly(s: SyncState, steps: seq<SyncStep>)
    requires SyncRuns(s, steps) && AdvertsSeparated(s)
    ensures AllAskEnough(s, steps) <==> NothingMissed(s, steps)
    decreases |steps|
  {
    if steps != [] {
      AsksEnoughExactly(s, steps[0]);
      if steps[0].Start? { AdvertisedMembers(s.acc[steps[0].a]); }
      SyncMissesExactly(SyncNext(s, steps[0]), steps[1..]);
    }
  }
}
