/**
 A condition on the acceptors alone under which every synchronisation asks for
 enough: each knows a first part of the history, and no further decree has been
 trimmed by anyone.
 */
module GaplessSync {
  import opened Ballots
  import opened PaxosModel
  import opened Intervals
  import opened Sync

  ghost predicate SomebodyHeld(init: seq<Acceptor>, d: DecreeId) {
    exists c :: 0 <= c < |init| && d in init[c].store
  }

  /** Of the decrees anyone held, the acceptor holds or has trimmed all that come before one it knows. */
  ghost predicate KnowsFirstPart(init: seq<Acceptor>, b: Acceptor) {
    forall p, q :: SomebodyHeld(init, p) && HeldOrTrimmed(b, q) && Before(p, q) ==> HeldOrTrimmed(b, p)
  }

  ghost predicate EverybodyKnew(init: seq<Acceptor>, d: DecreeId) {
    forall b :: 0 <= b < |init| ==> HeldOrTrimmed(init[b], d)
  }

  ghost predicate TrimmedIsKnown(init: seq<Acceptor>, a: Acceptor) {
    forall p :: SomebodyHeld(init, p) && Before(p, a.start) ==> EverybodyKnew(init, p)
  }

  /** Nobody has a gap, and nobody has trimmed beyond what the others know. */
  ghost predicate Gapless(init: seq<Acceptor>) {
    forall b :: 0 <= b < |init| ==> KnowsFirstPart(init, init[b]) && TrimmedIsKnown(init, init[b])
  }

  // ---------------------------------------------------------------- invariant

  ghost predicate BelowIsCovered(init: seq<Acceptor>, b: Acceptor, ds: iset<DecreeId>) {
    forall p, q :: SomebodyHeld(init, p) && q in ds && Before(p, q) ==> p in ds || HeldOrTrimmed(b, p)
  }

  ghost function MembersOf(xs: seq<Interval>): (r: iset<DecreeId>) {
    iset d | Member(d, xs)
  }

  ghost function KeysOf(m: map<DecreeId, Vote>): (r: iset<DecreeId>) {
    iset d | d in m
  }

  ghost predicate GapMessage(init: seq<Acceptor>, s: SyncState, m: Message) {
    && m.src < |s.acc| && m.dst < |s.acc|
    && match m
       case Advertise(a, b, ds) =>
         && Separated(ds) && (forall d :: Member(d, ds) ==> d in s.acc[a].store)
         && BelowIsCovered(init, s.acc[b], MembersOf(ds))
       case Ask(b, a, rqs) =>
         && Separated(rqs) && (forall d :: Member(d, rqs) ==> d in s.acc[a].store)
         && BelowIsCovered(init, s.acc[b], MembersOf(rqs))
       case Give(a, b, dvs) =>
         && (forall d :: d in dvs ==> SomebodyHeld(init, d))
         && BelowIsCovered(init, s.acc[b], KeysOf(dvs))
  }

  ghost predicate GapAcceptor(init: seq<Acceptor>, a: Acceptor, now: Acceptor) {
    && now.start == a.start && KnowsFirstPart(init, now)
    && (forall d :: HeldOrTrimmed(a, d) ==> HeldOrTrimmed(now, d))
    && (forall d :: d in now.store ==> SomebodyHeld(init, d))
  }

  ghost predicate GapInv(init: seq<Acceptor>, s: SyncState) {
    && |s.acc| == |init|
    && (forall a :: 0 <= a < |init| ==> GapAcceptor(init, init[a], s.acc[a]))
    && (forall m :: m in s.net ==> GapMessage(init, s, m))
  }

  lemma GapInit(init: seq<Acceptor>)
    requires Gapless(init)
    ensures GapInv(init, Begin(init))
  {
    forall a | 0 <= a < |init| ensures GapAcceptor(init, init[a], init[a]) {
      forall d | d in init[a].store ensures SomebodyHeld(init, d) {}
    }
  }

  lemma GapStart(init: seq<Acceptor>, s: SyncState, a: nat)
    requires Gapless(init) && GapInv(init, s) && SyncEnabled(s, Start(a))
    ensures GapInv(init, SyncNext(s, Start(a)))
  {
    var t := SyncNext(s, Start(a));
    AdvertisedMembers(s.acc[a]);
    forall b: nat | b < |s.acc| ensures GapMessage(init, t, Advertise(a, b, Advertised(s.acc[a]))) {
      AdvertIsCovered(init, s, a, b);
    }
  }

  lemma AdvertIsCovered(init: seq<Acceptor>, s: SyncState, a: nat, b: nat)
    requires Gapless(init) && GapInv(init, s) && a < |s.acc| && b < |s.acc|
    ensures BelowIsCovered(init, s.acc[b], MembersOf(Advertised(s.acc[a])))
  {
    AdvertisedMembers(s.acc[a]);
    assert GapAcceptor(init, init[a], s.acc[a]) && GapAcceptor(init, init[b], s.acc[b]);
    forall p, q | SomebodyHeld(init, p) && q in MembersOf(Advertised(s.acc[a])) && Before(p, q)
      ensures p in MembersOf(Advertised(s.acc[a])) || HeldOrTrimmed(s.acc[b], p)
    {
      assert HeldOrTrimmed(s.acc[a], q) && HeldOrTrimmed(s.acc[a], p);
      if Before(p, s.acc[a].start) {
        assert TrimmedIsKnown(init, init[a]);
        assert HeldOrTrimmed(init[b], p);
      }
    }
  }

  /** The asker knows a first part of what is advertised, so it misses nothing. */
  lemma GapAsksEnough(init: seq<Acceptor>, s: SyncState, m: Message)
    requires GapInv(init, s) && m in s.net && m.Advertise?
    ensures m.dst < |s.acc| && Separated(m.ds) && Enough(m.ds, NotWanted(s.acc[m.dst]))
  {
    assert GapMessage(init, s, m);
    var b := s.acc[m.dst];
    NotWantedMembers(b);
    assert GapAcceptor(init, init[m.dst], b) && GapAcceptor(init, init[m.src], s.acc[m.src]);
    forall p, q | Member(p, m.ds) && Member(q, NotWanted(b)) && Before(p, q) ensures Member(p, NotWanted(b)) {
      assert SomebodyHeld(init, p) && HeldOrTrimmed(b, q);
    }
    PrefixIsEnough(m.ds, NotWanted(b));
  }

  lemma AskIsCovered(init: seq<Acceptor>, b: Acceptor, ds: seq<Interval>)
    requires Separated(ds) && Enough(ds, NotWanted(b)) && BelowIsCovered(init, b, MembersOf(ds))
    ensures BelowIsCovered(init, b, MembersOf(Diff(ds, NotWanted(b))))
    ensures forall d :: Member(d, Diff(ds, NotWanted(b))) ==> Member(d, ds)
    ensures Separated(Diff(ds, NotWanted(b)))
  {
    var rqs := Diff(ds, NotWanted(b));
    NotWantedMembers(b);
    DiffSeparated(ds, NotWanted(b));
    forall d | Member(d, rqs) ensures Member(d, ds) { DiffWithin(d, ds, NotWanted(b)); }
    forall p, q | SomebodyHeld(init, p) && q in MembersOf(rqs) && Before(p, q)
      ensures p in MembersOf(rqs) || HeldOrTrimmed(b, p)
    {
      assert q in MembersOf(ds);
      if p in MembersOf(ds) { AskedOrHeld(b, ds, p); }
    }
  }

  lemma GapAdvertise(init: seq<Acceptor>, s: SyncState, m: Message)
    requires GapInv(init, s) && m in s.net && m.Advertise? && SyncEnabled(s, Take(m))
    ensures GapInv(init, SyncNext(s, Take(m)))
  {
    assert GapMessage(init, s, m);
    GapAsksEnough(init, s, m);
    AskIsCovered(init, s.acc[m.dst], m.ds);
    var t := SyncNext(s, Take(m));
    forall m' | m' in t.net ensures GapMessage(init, t, m') {
      if m' in s.net { assert GapMessage(init, s, m'); }
    }
  }

  lemma GapAsk(init: seq<Acceptor>, s: SyncState, m: Message)
    requires GapInv(init, s) && m in s.net && m.Ask? && SyncEnabled(s, Take(m))
    ensures GapInv(init, SyncNext(s, Take(m)))
  {
    assert GapMessage(init, s, m);
    assert GapAcceptor(init, init[m.dst], s.acc[m.dst]);
    var dvs := LookupRanges(s.acc[m.dst].store, m.rqs);
    forall d ensures d in dvs <==> Member(d, m.rqs) { LookupRangesFinds(s.acc[m.dst].store, m.rqs, d); }
    assert KeysOf(dvs) == MembersOf(m.rqs);
    var t := SyncNext(s, Take(m));
    forall m' | m' in t.net ensures GapMessage(init, t, m') {
      if m' in s.net { assert GapMessage(init, s, m'); }
    }
  }

  lemma GapGive(init: seq<Acceptor>, s: SyncState, m: Message)
    requires GapInv(init, s) && m in s.net && m.Give? && SyncEnabled(s, Take(m))
    ensures GapInv(init, SyncNext(s, Take(m)))
  {
    assert GapMessage(init, s, m);
    var t := SyncNext(s, Take(m));
    GivenKnowsFirstPart(init, init[m.dst], s.acc[m.dst], m.dvs);
    forall a, d | 0 <= a < |s.acc| && HeldOrTrimmed(s.acc[a], d) ensures HeldOrTrimmed(t.acc[a], d) {}
    forall a | 0 <= a < |init| ensures GapAcceptor(init, init[a], t.acc[a]) {
      assert GapAcceptor(init, init[a], s.acc[a]);
    }
    forall m' | m' in t.net ensures GapMessage(init, t, m') {
      assert GapMessage(init, s, m');
      GapMessageCarries(init, s, t, m');
    }
  }

  lemma GivenKnowsFirstPart(init: seq<Acceptor>, first: Acceptor, b: Acceptor, dvs: map<DecreeId, Vote>)
    requires GapAcceptor(init, first, b) && BelowIsCovered(init, b, KeysOf(dvs)) && forall d :: d in dvs ==> SomebodyHeld(init, d)
    ensures GapAcceptor(init, first, b.(store := b.store + dvs))
  {
    var b' := b.(store := b.store + dvs);
    forall p, q | SomebodyHeld(init, p) && HeldOrTrimmed(b', q) && Before(p, q) ensures HeldOrTrimmed(b', p) {
      if HeldOrTrimmed(b, q) { assert HeldOrTrimmed(b, p); } else { assert q in KeysOf(dvs); }
    }
  }

  lemma GapMessageCarries(init: seq<Acceptor>, s: SyncState, t: SyncState, m: Message)
    requires GapMessage(init, s, m) && |t.acc| == |s.acc|
    requires forall a, d :: 0 <= a < |s.acc| && d in s.acc[a].store ==> d in t.acc[a].store
    requires forall a, d :: 0 <= a < |s.acc| && HeldOrTrimmed(s.acc[a], d) ==> HeldOrTrimmed(t.acc[a], d)
    ensures GapMessage(init, t, m)
  {
  }

  /** From a gapless start, every synchronisation asks for enough, whatever its order. */
  lemma {:induction false} GaplessAsksEnough(init: seq<Acceptor>, s: SyncState, steps: seq<SyncStep>)
    requires Gapless(init) && GapInv(init, s) && SyncRuns(s, steps)
    ensures AllAskEnough(s, steps)
    decreases |steps|
  {
    if steps != [] {
      match steps[0] {
        case Start(a) => GapStart(init, s, a);
        case Take(m) =>
          if m.Advertise? { GapAsksEnough(init, s, m); GapAdvertise(init, s, m); }
          else if m.Ask? { GapAsk(init, s, m); }
          else { GapGive(init, s, m); }
      }
      GaplessAsksEnough(init, SyncNext(s, steps[0]), steps[1..]);
    }
  }

  /** A completed synchronisation of a gapless group leaves each decree anyone held with a majority. */
  lemma GaplessSpreads(init: seq<Acceptor>, steps: seq<SyncStep>)
    requires Gapless(init) && SyncRuns(Begin(init), steps) && Completed(SyncFinal(Begin(init), steps))
    ensures AllAskEnough(Begin(init), steps)
    ensures var t := SyncFinal(Begin(init), steps);
      && StoresOk(init, t)
      && forall a, d :: 0 <= a < |init| && d in init[a].store ==> |Holders(t.acc, d)| >= Quorum(|init|)
  {
    GapInit(init);
    GaplessAsksEnough(init, Begin(init), steps);
    SyncSpreads(init, steps);
  }

  /**
   A condition that every run asks for enough cannot do without: where one
   acceptor would miss something in what another advertises from the start, some
   run misses it.
   */
  lemma EnoughIsNeeded(init: seq<Acceptor>, a: nat, b: nat) returns (steps: seq<SyncStep>)
    requires a < |init| && b < |init| && a != b && !Enough(Advertised(init[a]), NotWanted(init[b]))
    ensures SyncRuns(Begin(init), steps) && !AllAskEnough(Begin(init), steps) && !NothingMissed(Begin(init), steps)
  {
    var adv := Advertise(a, b, Advertised(init[a]));
    var s := Begin(init);
    var s1 := SyncNext(s, Start(a));
    assert adv in s1.net;
    steps := [Start(a), Take(adv)];
    var rest := [Take(adv)];
    assert steps[1..] == rest && rest[1..] == [];
    var s2 := SyncNext(s1, Take(adv));
    assert SyncRuns(s2, []) && SyncRuns(s1, rest) && SyncRuns(s, steps);
    assert !AsksEnough(s1, Take(adv));
    SyncMissesExactly(s, steps);
  }
}
