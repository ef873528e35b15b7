/** How many states recovery needs, and which recovered copies are enough: exact conditions. */
module RecoveryLimits {
  import opened Ballots
  import opened PaxosModel
  import opened PaxosInvariant
  import opened PaxosSteps
  import opened PaxosRounds
  import opened PaxosSafety
  import PaxosAlways
  import opened PaxosMoves
  import opened AgreementLimits
  import opened Recovery

  // ---------------------------------------------------------------- half of the old group

  /** All votes for d in the states of the given acceptors. */
  function Scan(acc: seq<Acceptor>, hs: seq<nat>, d: DecreeId): (r: seq<Ack>)
    requires forall i :: 0 <= i < |hs| ==> hs[i] < |acc|
  {
    if hs == [] then [] else Lookup(acc[hs[0]].store, d) + Scan(acc, hs[1..], d)
  }

  lemma {:induction false} ScanHas(acc: seq<Acceptor>, hs: seq<nat>, d: DecreeId, k: Ack)
    requires forall i :: 0 <= i < |hs| ==> hs[i] < |acc|
    ensures k in Scan(acc, hs, d) <==>
      exists i :: 0 <= i < |hs| && d in acc[hs[i]].store && k == Ack(d, acc[hs[i]].store[d].b, acc[hs[i]].store[d].x)
  {
    if hs != [] {
      ScanHas(acc, hs[1..], d, k);
      if k in Scan(acc, hs[1..], d) {
        var i :| 0 <= i < |hs[1..]| && d in acc[hs[1..][i]].store && k == Ack(d, acc[hs[1..][i]].store[d].b, acc[hs[1..][i]].store[d].x);
        assert hs[i + 1] == hs[1..][i];
      }
    }
  }

  /** The states of different acceptors of the group, none of which has trimmed d. */
  predicate States(acc: seq<Acceptor>, hs: seq<nat>, d: DecreeId) {
    && (forall i :: 0 <= i < |hs| ==> hs[i] < |acc| && !Before(d, acc[hs[i]].start))
    && (forall i, j :: 0 <= i < j < |hs| ==> hs[i] != hs[j])
  }

  ghost predicate Recovers(s: State, hs: seq<nat>, d: DecreeId, x: Choice)
    requires States(s.acc, hs, d)
  {
    var best := ChooseVote(d, Scan(s.acc, hs, d));
    best != [] && best[0].x == x
  }

  /** A vote found in some state that is at or above a chosen ballot is for the chosen value. */
  lemma StoredAboveChosen(s: State, a: nat, d: DecreeId, b: Ballot, x: Choice, quorum: set<nat>)
    requires Forward(s) && Memory(s) && Chosen(s, d, b, x, quorum)
    requires a < |s.acc| && d in s.acc[a].store && Le(b, s.acc[a].store[d].b)
    ensures s.acc[a].store[d].x == x
  {
    var w := s.acc[a].store[d];
    assert VoteKept(s, Cast(a, d, w.b, w.x));
    ChosenIsStable(s, d, b, x, quorum, Ack(d, w.b, w.x));
  }

  /** Half of the group is enough to meet the majority that voted. */
  lemma HalfMeetsMajority(s: State, d: DecreeId, b: Ballot, x: Choice, quorum: set<nat>, hs: seq<nat>) returns (i: nat)
    requires Memory(s) && Chosen(s, d, b, x, quorum) && States(s.acc, hs, d) && 2 * |hs| >= |s.acc|
    ensures i < |hs| && d in s.acc[hs[i]].store && Le(b, s.acc[hs[i]].store[d].b)
  {
    DistinctSize(hs);
    assert SeqSet(hs) <= Below(|s.acc|);
    var a := SetsMeet(|s.acc|, quorum, SeqSet(hs));
    assert VoteKept(s, Cast(a, d, b, x));
    i :| 0 <= i < |hs| && hs[i] == a;
  }

  /** The highest vote in the states of at least half of the group is for the chosen value. */
  lemma HalfRecovers(s: State, d: DecreeId, b: Ballot, x: Choice, quorum: set<nat>, hs: seq<nat>)
    requires Forward(s) && Memory(s) && Chosen(s, d, b, x, quorum) && States(s.acc, hs, d) && 2 * |hs| >= |s.acc|
    ensures Recovers(s, hs, d, x)
  {
    var i := HalfMeetsMajority(s, d, b, x, quorum, hs);
    var j := HighestState(s.acc, hs, d, i);
    StoredAboveChosen(s, hs[j], d, b, x, quorum);
  }

  /** The vote chosen from the states is that of one of them, at or above any other. */
  lemma HighestState(acc: seq<Acceptor>, hs: seq<nat>, d: DecreeId, i: nat) returns (j: nat)
    requires States(acc, hs, d) && i < |hs| && d in acc[hs[i]].store
    ensures j < |hs| && d in acc[hs[j]].store && Le(acc[hs[i]].store[d].b, acc[hs[j]].store[d].b)
    ensures var best := ChooseVote(d, Scan(acc, hs, d)); best != [] && best[0].x == acc[hs[j]].store[d].x
  {
    var w := acc[hs[i]].store[d];
    ScanHas(acc, hs, d, Ack(d, w.b, w.x));
    ChooseVoteIsHighest(d, Scan(acc, hs, d));
    var best := ChooseVote(d, Scan(acc, hs, d))[0];
    ScanHas(acc, hs, d, best);
    j :| 0 <= j < |hs| && d in acc[hs[j]].store && best == Ack(d, acc[hs[j]].store[d].b, acc[hs[j]].store[d].x);
  }

  /** Whatever clean run led up to it, h states of a group of n give back every chosen value. */
  ghost predicate StatesSuffice(n: nat, h: nat) {
    forall steps, d, b, x, quorum, hs ::
      && Runs(Init(n), steps) && CleanRun(Init(n), steps) && |hs| == h
      && Chosen(Final(Init(n), steps), d, b, x, quorum) && States(Final(Init(n), steps).acc, hs, d)
      ==> Recovers(Final(Init(n), steps), hs, d, x)
  }

  /** A majority has voted for 10 while the last n - Quorum(n) acceptors know nothing. */
  lemma ChosenByFirst(n: nat) returns (steps: seq<Step>)
    requires n >= 1
    ensures Runs(Init(n), steps) && AllAllowed(Init(n), steps, CLEAN)
    ensures var t := Final(Init(n), steps);
      && |t.acc| == n
      && (forall a :: 0 <= a < Quorum(n) <= n ==> t.acc[a].store == map[D := Vote(B0, 10)])
      && (forall a :: Quorum(n) <= a < n ==> t.acc[a] == Acceptor(D, Bottom, Bottom, map[]))
  {
    var s := FirstScout(n, 0, 10, CLEAN);
    var t := AcceptRange(s, B0, 1, 10, 0, Quorum(n), CLEAN);
    ReachesMore(Init(n), s, t, CLEAN);
    steps := ReachesByRun(Init(n), t, CLEAN);
  }

  lemma {:induction false} ScanFindsNothing(acc: seq<Acceptor>, hs: seq<nat>, d: DecreeId)
    requires forall i :: 0 <= i < |hs| ==> hs[i] < |acc| && d !in acc[hs[i]].store
    ensures Scan(acc, hs, d) == []
  {
    if hs != [] { ScanFindsNothing(acc, hs[1..], d); }
  }

  lemma StoredIsChosen(s: State, n: nat)
    requires Memory(s) && |s.acc| == n && Quorum(n) <= n
    requires forall a :: 0 <= a < Quorum(n) ==> s.acc[a].store == map[D := Vote(B0, 10)]
    ensures Chosen(s, D, B0, 10, Below(Quorum(n)))
  {
    forall a | a in Below(Quorum(n)) ensures Cast(a, D, B0, 10) in s.votes {
      assert D in s.acc[a].store;
    }
  }

  /** Fewer than half of the states can miss the majority altogether. */
  lemma FewerThanHalfLose(n: nat, h: nat) returns (steps: seq<Step>, hs: seq<nat>)
    requires 2 * h < n
    ensures Runs(Init(n), steps) && CleanRun(Init(n), steps) && |hs| == h
    ensures var t := Final(Init(n), steps);
      Chosen(t, D, B0, 10, Below(Quorum(n))) && States(t.acc, hs, D) && !Recovers(t, hs, D, 10)
  {
    steps := ChosenByFirst(n);
    CleanRunsRemember(n, steps);
    StoredIsChosen(Final(Init(n), steps), n);
    hs := LastStates(Final(Init(n), steps), n, h);
  }

  lemma CleanRunsRemember(n: nat, steps: seq<Step>)
    requires Runs(Init(n), steps) && AllAllowed(Init(n), steps, CLEAN)
    ensures CleanRun(Init(n), steps) && Memory(Final(Init(n), steps))
  {
    AllowedRunsAreClean(Init(n), steps, CLEAN);
    InitHolds(n);
    RunKeeps(Init(n), steps);
  }

  lemma LastStates(s: State, n: nat, h: nat) returns (hs: seq<nat>)
    requires |s.acc| == n && Quorum(n) + h <= n
    requires forall a :: Quorum(n) <= a < n ==> s.acc[a] == Acceptor(D, Bottom, Bottom, map[])
    ensures |hs| == h && States(s.acc, hs, D) && !Recovers(s, hs, D, 10)
  {
    hs := seq(h, i requires 0 <= i < h => Quorum(n) + i);
    ScanFindsNothing(s.acc, hs, D);
  }

  /** The rule of at least half of the old group is exact. */
  lemma HalfExactly(n: nat, h: nat)
    ensures StatesSuffice(n, h) <==> 2 * h >= n
  {
    if 2 * h < n {
      var steps, hs := FewerThanHalfLose(n, h);
    } else {
      forall steps, d, b, x, quorum, hs |
        && Runs(Init(n), steps) && CleanRun(Init(n), steps) && |hs| == h
        && Chosen(Final(Init(n), steps), d, b, x, quorum) && States(Final(Init(n), steps).acc, hs, d)
        ensures Recovers(Final(Init(n), steps), hs, d, x)
      {
        InitHolds(n);
        RunKeeps(Init(n), steps);
        PaxosAlways.GroupSizeStays(Init(n), steps);
        HalfRecovers(Final(Init(n), steps), d, b, x, quorum, hs);
      }
    }
  }

  // ---------------------------------------------------------------- which copies are enough

  /** The store of acceptor a among n: the first h hold v at ballot top, the next k hold w at the lower ballot low. */
  function CopyAt(a: nat, h: nat, k: nat, v: Choice, w: Choice, top: Ballot, low: Ballot): (m: map<DecreeId, Vote>) {
    if a < h then map[D := Vote(top, v)] else if a < h + k then map[D := Vote(low, w)] else map[]
  }

  /**
   A group of n starts with h copies of v, k older copies of w, and no others.
   If ballots are kept, those with the newer copy have a stored ballot as high.
   */
  ghost predicate Copied(s: State, n: nat, h: nat, k: nat, v: Choice, w: Choice, top: Ballot, low: Ballot, kept: bool) {
    && Starting(s) && |s.acc| == n && v != w && Lt(low, top)
    && (forall a :: 0 <= a < n ==> s.acc[a].start == D && s.acc[a].store == CopyAt(a, h, k, v, w, top, low))
    && (kept ==> forall a :: 0 <= a < n && a < h ==> LiftedLe(Value(top), s.acc[a].bal) && LiftedLe(Value(top), s.acc[a].disk))
  }

  /** Whatever such a group starts from and whatever happens then, proposals return v. */
  ghost predicate AlwaysReturn(n: nat, h: nat, k: nat, kept: bool) {
    forall s, v, w, top, low, steps, q ::
      && Copied(s, n, h, k, v, w, top, low, kept) && Runs(s, steps)
      && q in Final(s, steps).decided && q.d == D
      ==> q.x == v
  }

  function Copies(n: nat, h: nat, k: nat, v: Choice, w: Choice, top: Ballot, low: Ballot, bal: Lifted): (s: State) {
    State(seq(n, a requires 0 <= a < n =>
                Acceptor(D, if a < h then bal else Bottom, if a < h then bal else Bottom, CopyAt(a, h, k, v, w, top, low))),
          map[], {}, [], map[], {}, {(D, v), (D, w)}, {})
  }

  const TOP := B2
  const OLD := B1

  /** With a majority of acceptors without a newer copy, another value can be returned. */
  lemma TooFewCopies(n: nat, h: nat, k: nat, bal: Lifted) returns (t: State)
    requires h + Quorum(n) <= n
    ensures Reaches(Copies(n, h, k, 1, 2, TOP, OLD, bal), t, CLEAN) && Has(t, 2)
  {
    var s := Copies(n, h, k, 1, 2, TOP, OLD, bal);
    var s1 := OpenProposal(s, 0, 2, CLEAN);
    var s2 := ScoutMajority(s1, 0, h, h + Quorum(n), 2, B0, h, CLEAN);
    ReachesMore(s, s1, s2, CLEAN);
    t := VoteMajority(s2, 0, h, h + Quorum(n), CLEAN);
    ReachesMore(s, s2, t, CLEAN);
  }

  /** The copies of 1 are at ballots no higher than B0, the stale ones are untouched. */
  ghost predicate Lowered(s: State, n: nat, h: nat, k: nat) {
    && h <= n && |s.acc| == n && 1 !in s.procs && Ready(s, 0, n, B0)
    && (forall a :: 0 <= a < h ==> s.acc[a].store == map[D := Vote(B0, 1)])
    && (forall a :: h <= a < h + k && a < n ==> s.acc[a].store == map[D := Vote(OLD, 2)])
    && (forall a :: h + k <= a < n ==> s.acc[a].store == map[])
  }

  /** A first proposal puts 1 forward again, at a ballot below that of the stale copies. */
  lemma LowerCopies(n: nat, h: nat, k: nat) returns (t: State)
    requires k >= 1 && h + k <= n
    ensures Reaches(Copies(n, h, k, 1, 2, TOP, OLD, Bottom), t, CLEAN) && Lowered(t, n, h, k)
  {
    var s := Copies(n, h, k, 1, 2, TOP, OLD, Bottom);
    if h == 0 {
      t := s;
      ReachesSelf(s, CLEAN);
    } else {
      var s1 := OpenProposal(s, 0, 1, CLEAN);
      var s2 := ScoutMajority(s1, 0, 0, Quorum(n), 1, TOP, 0, CLEAN);
      ReachesMore(s, s1, s2, CLEAN);
      t := AcceptRange(s2, B0, 1, 1, 0, h, CLEAN);
      ReachesMore(s, s2, t, CLEAN);
      CopiesOverwritten(n, h, k, s2, t);
    }
  }

  lemma CopiesOverwritten(n: nat, h: nat, k: nat, s: State, t: State)
    requires h + k <= n && |s.acc| == n && Voted(s, t, 0, h, B0, 1)
    requires forall a :: 0 <= a < n ==> s.acc[a].store == CopyAt(a, h, k, 1, 2, TOP, OLD)
    ensures forall a :: 0 <= a < n ==> t.acc[a].store == CopyAt(a, h, k, 1, 2, B0, OLD)
  {
    forall a | 0 <= a < h ensures t.acc[a].store == map[D := Vote(B0, 1)] {
      assert s.acc[a].store[D := Vote(B0, 1)] == map[D := Vote(B0, 1)];
    }
  }

  /** One stale copy is enough for a second proposal to return it. */
  lemma StaleCopyWins(n: nat, h: nat, k: nat) returns (t: State)
    requires k >= 1 && h + k <= n
    ensures Reaches(Copies(n, h, k, 1, 2, TOP, OLD, Bottom), t, CLEAN) && Has(t, 2)
  {
    var s := LowerCopies(n, h, k);
    t := StaleCopyIsReturned(s, n, h, k);
    ReachesMore(Copies(n, h, k, 1, 2, TOP, OLD, Bottom), s, t, CLEAN);
  }

  lemma StaleCopyIsReturned(s: State, n: nat, h: nat, k: nat) returns (t: State)
    requires k >= 1 && h + k <= n && Lowered(s, n, h, k)
    ensures Reaches(s, t, CLEAN) && Has(t, 2)
  {
    var m := Quorum(n);
    var lo := if h + m <= n then h else n - m;
    var s1 := OpenProposal(s, 1, 2, CLEAN);
    var s2 := ScoutMajority(s1, 1, lo, lo + m, 2, OLD, h, CLEAN);
    ReachesMore(s, s1, s2, CLEAN);
    t := VoteMajority(s2, 1, lo, lo + m, CLEAN);
    ReachesMore(s, s2, t, CLEAN);
  }

  /** A run from some such group that returns another value refutes the rest. */
  lemma ReturnsAnother(n: nat, h: nat, k: nat, kept: bool, bal: Lifted, t: State)
    requires h + k <= n && (kept ==> bal == Value(TOP))
    requires Reaches(Copies(n, h, k, 1, 2, TOP, OLD, bal), t, CLEAN) && Has(t, 2)
    ensures !AlwaysReturn(n, h, k, kept)
  {
    var s := Copies(n, h, k, 1, 2, TOP, OLD, bal);
    var steps := ReachesByRun(s, t, CLEAN);
    var q :| q in t.decided && q.d == D && q.x == 2;
    assert Copied(s, n, h, k, 1, 2, TOP, OLD, kept);
  }

  lemma EnoughCopiesReturn(s: State, n: nat, h: nat, k: nat, v: Choice, w: Choice, top: Ballot, low: Ballot, kept: bool,
                           steps: seq<Step>, q: Decision)
    requires h + k <= n && h + Quorum(n) > n && (kept || k == 0) && Copied(s, n, h, k, v, w, top, low, kept)
    requires Runs(s, steps) && q in Final(s, steps).decided && q.d == D
    ensures q.x == v
  {
    var g := Kept(D, v, if kept then Value(top) else Bottom, Below(h));
    KeptValueStays(s, steps, g, q);
  }

  /**
   Every later proposal returns v, whatever happens, exactly when fewer than a
   majority of acceptors are without the newer copy, and either there is no older
   copy or those with the newer one keep a ballot as high.
   */
  lemma CopiesExactly(n: nat, h: nat, k: nat, kept: bool)
    requires h + k <= n
    ensures AlwaysReturn(n, h, k, kept) <==> h + Quorum(n) > n && (kept || k == 0)
  {
    if h + Quorum(n) <= n {
      var t := TooFewCopies(n, h, k, Value(TOP));
      ReturnsAnother(n, h, k, kept, Value(TOP), t);
    } else if !kept && k > 0 {
      var t := StaleCopyWins(n, h, k);
      ReturnsAnother(n, h, k, kept, Bottom, t);
    } else {
      forall s, v, w, top, low, steps, q |
        && Copied(s, n, h, k, v, w, top, low, kept) && Runs(s, steps)
        && q in Final(s, steps).decided && q.d == D
        ensures q.x == v
      {
        EnoughCopiesReturn(s, n, h, k, v, w, top, low, kept, steps, q);
      }
    }
  }
}
