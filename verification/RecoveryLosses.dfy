/**
 How a chosen value is lost although more than half of the old states are at
 hand: two histories from a new group to a later proposal, through a clean run,
 new acceptors started on the old states, a completed synchronisation and a
 clean later run.
 */
module RecoveryLosses {
  import opened Ballots
  import opened PaxosModel
  import opened PaxosInvariant
  import opened PaxosSafety
  import PaxosAlways
  import opened PaxosMoves
  import opened AgreementLimits
  import opened Sync
  import opened SyncLimits
  import opened Recovery
  import opened RecoveryLimits

  /** Acceptors started on stored states: the ballot is read back from the store. */
  function Reseeded(acc: seq<Acceptor>): (r: seq<Acceptor>) {
    seq(|acc|, a requires 0 <= a < |acc| => Restarted(acc[a]))
  }

  /** The group that starts on these acceptors. */
  ghost predicate StartsOn(s: State, acc: seq<Acceptor>) {
    Starting(s) && s.acc == acc
  }

  /** A run that forgets nothing, reuses nothing and is never interrupted leads to a decision of x on d. */
  ghost predicate CanReturn(s: State, d: DecreeId, x: Choice) {
    exists t :: Reaches(s, t, CLEAN) && Has(t, x, d)
  }

  /**
   After some clean run of n acceptors x is chosen for d; the group restarted on
   all their states completes a synchronisation; and then y can be returned for d.
   */
  ghost predicate Loses(n: nat, steps: seq<Step>, d: DecreeId, b: Ballot, x: Choice, quorum: set<nat>,
                        syncing: seq<SyncStep>, s: State, y: Choice) {
    && Runs(Init(n), steps) && CleanRun(Init(n), steps) && Chosen(Final(Init(n), steps), d, b, x, quorum)
    && var acc := Reseeded(Final(Init(n), steps).acc);
       && SyncRuns(Begin(acc), syncing) && Completed(SyncFinal(Begin(acc), syncing))
       && StartsOn(s, SyncFinal(Begin(acc), syncing).acc) && CanReturn(s, d, y)
  }

  // ---------------------------------------------------------------- an older copy

  /** Proposer 1 has got votes for 2 from the last n - h acceptors, each of which had promised it. */
  lemma OlderVotes(n: nat, h: nat) returns (t: State)
    requires Quorum(n) <= h < n
    ensures Reaches(Init(n), t, CLEAN) && |t.acc| == n && 2 !in t.procs && Ready(t, 0, n, B1)
    ensures forall a :: 0 <= a < n ==> t.acc[a].disk == Bottom
    ensures forall a :: 0 <= a < h ==> t.acc[a].store == map[]
    ensures forall a :: h <= a < n ==> t.acc[a].store == map[D := Vote(B1, 2)]
  {
    var s1 := OpenProposal(Init(n), 1, 2, CLEAN);
    var s2 := PromiseRange(s1, B1, 0, h, n, CLEAN);
    ReachesMore(Init(n), s1, s2, CLEAN);
    var s3 := ScoutMajority(s2, 1, 0, Quorum(n), 2, B0, 0, CLEAN);
    ReachesMore(Init(n), s2, s3, CLEAN);
    t := AcceptRange(s3, B1, 1, 2, h, n, CLEAN);
    ReachesMore(Init(n), s3, t, CLEAN);
  }

  /** Then proposer 2 gets votes for 1 from the first h, which had promised it. */
  lemma NewerVotes(n: nat, h: nat) returns (t: State)
    requires Quorum(n) <= h < n
    ensures Reaches(Init(n), t, CLEAN) && |t.acc| == n
    ensures Reseeded(t.acc) == Copies(n, h, n - h, 1, 2, TOP, OLD, Bottom).acc
  {
    var s := OlderVotes(n, h);
    var me := |s.atts|;
    var s1 := OpenProposal(s, 2, 1, CLEAN);
    ReachesMore(Init(n), s, s1, CLEAN);
    var s2 := PromiseRange(s1, B2, me, Quorum(n), h, CLEAN);
    ReachesMore(Init(n), s1, s2, CLEAN);
    var s3 := ScoutMajority(s2, 2, 0, Quorum(n), 1, B0, 0, CLEAN);
    ReachesMore(Init(n), s2, s3, CLEAN);
    t := AcceptRange(s3, B2, me + 1, 1, 0, h, CLEAN);
    ReachesMore(Init(n), s3, t, CLEAN);
    forall a | 0 <= a < n ensures Restarted(t.acc[a]) == Copies(n, h, n - h, 1, 2, TOP, OLD, Bottom).acc[a] {
      assert map[][D := Vote(B2, 1)] == map[D := Vote(B2, 1)];
    }
  }

  lemma CleanReachChooses(n: nat, t: State, d: DecreeId, v: Vote, quorum: set<nat>) returns (steps: seq<Step>)
    requires Reaches(Init(n), t, CLEAN) && quorum <= Below(|t.acc|) && |quorum| >= Quorum(|t.acc|)
    requires forall a :: a in quorum ==> d in t.acc[a].store && t.acc[a].store[d] == v
    ensures Runs(Init(n), steps) && CleanRun(Init(n), steps) && Final(Init(n), steps) == t && Chosen(t, d, v.b, v.x, quorum)
  {
    steps := ReachesByRun(Init(n), t, CLEAN);
    CleanRunsRemember(n, steps);
  }

  lemma NewerIsChosen(n: nat, h: nat, t: State) returns (steps: seq<Step>)
    requires Quorum(n) <= h < n && Reaches(Init(n), t, CLEAN) && |t.acc| == n
    requires Reseeded(t.acc) == Copies(n, h, n - h, 1, 2, TOP, OLD, Bottom).acc
    ensures Runs(Init(n), steps) && CleanRun(Init(n), steps) && Final(Init(n), steps) == t && Chosen(t, D, B2, 1, Below(h))
  {
    forall a | a in Below(h) ensures t.acc[a].store == map[D := Vote(B2, 1)] {
      assert Restarted(t.acc[a]) == Reseeded(t.acc)[a];
    }
    steps := CleanReachChooses(n, t, D, Vote(B2, 1), Below(h));
  }

  lemma CopiesSyncIdly(n: nat, h: nat) returns (syncing: seq<SyncStep>)
    requires h <= n
    ensures var acc := Copies(n, h, n - h, 1, 2, TOP, OLD, Bottom).acc;
      SyncRuns(Begin(acc), syncing) && Completed(SyncFinal(Begin(acc), syncing)) && SyncFinal(Begin(acc), syncing).acc == acc
  {
    var acc := Copies(n, h, n - h, 1, 2, TOP, OLD, Bottom).acc;
    SameOneDecree(acc);
    var u := IdleSync(acc);
    syncing := SyncReachesByRun(Begin(acc), u);
  }

  /**
   A chosen value is lost to an older copy: the acceptors voted right after they
   had promised, so nothing was stored of their ballots, and a synchronisation
   changes nothing. Later 1 is put forward again below the older copy of 2.
   */
  lemma OlderCopyWins(n: nat, h: nat) returns (steps: seq<Step>, syncing: seq<SyncStep>, s: State)
    requires Quorum(n) <= h < n
    ensures Loses(n, steps, D, B2, 1, Below(h), syncing, s, 2)
  {
    var t := NewerVotes(n, h);
    steps := NewerIsChosen(n, h, t);
    syncing := CopiesSyncIdly(n, h);
    s := CopiesLose(n, h);
    LossComplete(n, steps, t, D, B2, 1, Below(h), Reseeded(t.acc), syncing, s, 2);
  }

  lemma CopiesLose(n: nat, h: nat) returns (s: State)
    requires h < n
    ensures StartsOn(s, Copies(n, h, n - h, 1, 2, TOP, OLD, Bottom).acc) && CanReturn(s, D, 2)
  {
    s := Copies(n, h, n - h, 1, 2, TOP, OLD, Bottom);
    var t := StaleCopyWins(n, h, n - h);
  }

  lemma LossComplete(n: nat, steps: seq<Step>, t: State, d: DecreeId, b: Ballot, x: Choice, quorum: set<nat>,
                     acc: seq<Acceptor>, syncing: seq<SyncStep>, s: State, y: Choice)
    requires Runs(Init(n), steps) && CleanRun(Init(n), steps) && Final(Init(n), steps) == t && Chosen(t, d, b, x, quorum)
    requires acc == Reseeded(t.acc) && SyncRuns(Begin(acc), syncing) && Completed(SyncFinal(Begin(acc), syncing))
    requires StartsOn(s, SyncFinal(Begin(acc), syncing).acc) && CanReturn(s, d, y)
    ensures Loses(n, steps, d, b, x, quorum, syncing, s, y)
  {
  }

  // ---------------------------------------------------------------- a decree asked for again

  const B3 := Ballot(0, 3)

  /** Acceptor 2 has voted 20 for decree 2; then 10 is chosen by the others, who vote on decree 0 too. */
  ghost predicate TwoDecrees(t: State) {
    && |t.acc| == 3 && Ready(t, 0, 3, B2)
    && t.acc[0].store == t.acc[1].store == map[D2 := Vote(B1, 10), D0 := Vote(B2, 7)]
    && t.acc[2].store == map[D2 := Vote(B0, 20)]
  }

  lemma OneOldCopy() returns (t: State)
    ensures Reaches(Init(3), t, CLEAN) && |t.acc| == 3 && Ready(t, 0, 3, B0) && t.procs.Keys == {0}
    ensures t.acc[0].store == t.acc[1].store == map[] && t.acc[2].store == map[D2 := Vote(B0, 20)]
  {
    var s1 := OpenProposal(Init(3), 0, 20, CLEAN, D2);
    var s2 := ScoutMajority(s1, 0, 1, 3, 20, B0, 1, CLEAN);
    ReachesMore(Init(3), s1, s2, CLEAN);
    t := AcceptRange(s2, B0, 1, 20, 2, 3, CLEAN, D2);
    ReachesMore(Init(3), s2, t, CLEAN);
  }

  /** A proposal of p, for d, voted for by acceptors 0 and 1. */
  lemma VoteOfTwo(s0: State, s: State, p: nat, x: Choice, d: DecreeId) returns (t: State)
    requires Reaches(s0, s, CLEAN) && |s.acc| == 3 && p !in s.procs && Ready(s, 0, 3, Ballot(0, p))
    requires d !in s.acc[0].store && d !in s.acc[1].store
    ensures Reaches(s0, t, CLEAN) && |t.acc| == 3 && Ready(t, 0, 3, Ballot(0, p)) && t.procs == s.procs && t.acc[2] == s.acc[2]
    ensures forall a :: 0 <= a < 2 ==> t.acc[a].store == s.acc[a].store[d := Vote(Ballot(0, p), x)]
  {
    var s1 := OpenProposal(s, p, x, CLEAN, d);
    ReachesMore(s0, s, s1, CLEAN);
    var s2 := ScoutMajority(s1, p, 0, 2, x, B0, 0, CLEAN);
    ReachesMore(s0, s1, s2, CLEAN);
    t := VoteMajority(s2, p, 0, 2, CLEAN);
    ReachesMore(s0, s2, t, CLEAN);
    assert t.procs == s.procs;
  }

  lemma ChosenAmongTwo() returns (t: State)
    ensures Reaches(Init(3), t, CLEAN) && TwoDecrees(t)
  {
    var s := OneOldCopy();
    var u := VoteOfTwo(Init(3), s, 1, 10, D2);
    t := VoteOfTwo(Init(3), u, 2, 7, D0);
    assert map[][D2 := Vote(B1, 10)][D0 := Vote(B2, 7)] == map[D2 := Vote(B1, 10), D0 := Vote(B2, 7)];
  }

  /** What is stored of a ballot is never above the ballot itself. */
  lemma DisksAreLow(n: nat, t: State)
    requires Reaches(Init(n), t, CLEAN)
    ensures forall a :: 0 <= a < |t.acc| ==> LiftedLe(t.acc[a].disk, t.acc[a].bal)
  {
    var steps := ReachesByRun(Init(n), t, CLEAN);
    PaxosAlways.GroupSizeStays(Init(n), steps);
    forall a | 0 <= a < |t.acc| ensures LiftedLe(t.acc[a].disk, t.acc[a].bal) {
      PaxosAlways.StoredBallot(Init(n), steps, a, PaxosAlways.Never);
    }
  }

  /** The group about to start on these acceptors. */
  function StartOn(acc: seq<Acceptor>): (s: State) {
    State(acc, map[], {}, [], map[], {},
          set a, d | 0 <= a < |acc| && d in acc[a].store :: (d, acc[a].store[d].x), {})
  }

  /** Acceptors that all hold x for d, with ballots no higher than B2, can return it. */
  lemma CopiesReturn(acc: seq<Acceptor>, d: DecreeId, x: Choice)
    requires |acc| == 3 && Ready(StartOn(acc), 0, 3, B3)
    requires forall a :: 0 <= a < 3 ==> d in acc[a].store && acc[a].store[d].x == x
    ensures CanReturn(StartOn(acc), d, x)
  {
    var s := StartOn(acc);
    var s1 := OpenProposal(s, 3, x, CLEAN, d);
    var s2 := ScoutMajority(s1, 3, 0, 2, x, B0, 0, CLEAN);
    ReachesMore(s, s1, s2, CLEAN);
    var t := VoteMajority(s2, 3, 0, 2, CLEAN);
    ReachesMore(s, s2, t, CLEAN);
  }

  /** The old copy spreads to every store. */
  lemma OldCopySpreads(t: State) returns (u: SyncState)
    requires TwoDecrees(t) && forall a :: 0 <= a < |t.acc| ==> LiftedLe(t.acc[a].disk, t.acc[a].bal)
    ensures SyncReaches(Begin(Reseeded(t.acc)), u) && Completed(u) && |u.acc| == 3 && Ready(StartOn(u.acc), 0, 3, B3)
    ensures forall a :: 0 <= a < 3 ==> D2 in u.acc[a].store && u.acc[a].store[D2] == Vote(B0, 20)
  {
    var acc := Reseeded(t.acc);
    assert forall a :: 0 <= a < 3 ==> acc[a] == Restarted(t.acc[a]);
    u := SyncForgets(acc);
    forall a | 0 <= a < 3 ensures u.acc[a].start == D && LiftedLe(u.acc[a].bal, Value(B3)) {
      assert u.acc[a].bal == t.acc[a].disk;
    }
  }

  lemma OnlyTwentyReturns(s: State, later: seq<Step>, q: Decision)
    requires Starting(s) && |s.acc| == 3 && Runs(s, later) && q in Final(s, later).decided && q.d == D2
    requires forall a :: 0 <= a < 3 ==> D2 in s.acc[a].store && s.acc[a].store[D2] == Vote(B0, 20)
    ensures q.x == 20
  {
    assert Holders(s.acc, D2) == Below(3);
    RecoveredValueStays(s, later, D2, 20, q);
  }

  lemma StartOnStarts(acc: seq<Acceptor>)
    ensures Starting(StartOn(acc))
  {
  }

  /**
   A chosen value is lost to an older vote for another value, in every store: 10 was
   chosen, and after a completed synchronisation 20 can be returned, and is what
   every later proposal returns.
   */
  lemma AskedAgainWins() returns (steps: seq<Step>, syncing: seq<SyncStep>, s: State)
    ensures Loses(3, steps, D2, B1, 10, {0, 1}, syncing, s, 20)
    ensures forall later, q :: Runs(s, later) && q in Final(s, later).decided && q.d == D2 ==> q.x == 20
  {
    var t := ChosenAmongTwo();
    DisksAreLow(3, t);
    steps := CleanReachChooses(3, t, D2, Vote(B1, 10), {0, 1});
    var u := OldCopySpreads(t);
    syncing := SyncReachesByRun(Begin(Reseeded(t.acc)), u);
    s := StartOn(u.acc);
    StartOnStarts(u.acc);
    CopiesReturn(u.acc, D2, 20);
    forall later, q | Runs(s, later) && q in Final(s, later).decided && q.d == D2 ensures q.x == 20 {
      OnlyTwentyReturns(s, later, q);
    }
  }
}
