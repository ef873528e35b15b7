/**
 From the old group to the recovered one: a value chosen in a clean run, found
 in the states of at least half of the acceptors, is what every later proposal
 of the recovered group returns.
 */
module RecoveredGroup {
  import opened Ballots
  import opened PaxosModel
  import opened PaxosInvariant
  import opened PaxosSteps
  import opened PaxosRounds
  import opened PaxosSafety
  import PaxosAlways
  import opened Sync
  import opened GaplessSync
  import opened Recovery
  import opened RecoveryLimits

  /** A clean run of n acceptors has chosen x for d at ballot b, and the states hs of at least half of them are at hand. */
  ghost predicate HalfAtHand(n: nat, steps: seq<Step>, d: DecreeId, b: Ballot, x: Choice, quorum: set<nat>, hs: seq<nat>) {
    && Runs(Init(n), steps) && CleanRun(Init(n), steps)
    && Chosen(Final(Init(n), steps), d, b, x, quorum)
    && States(Final(Init(n), steps).acc, hs, d) && 2 * |hs| >= n
  }

  lemma HalfInv(n: nat, steps: seq<Step>, d: DecreeId, b: Ballot, x: Choice, quorum: set<nat>, hs: seq<nat>)
    requires HalfAtHand(n, steps, d, b, x, quorum, hs)
    ensures Inv(Final(Init(n), steps)) && |Final(Init(n), steps).acc| == n
  {
    InitHolds(n);
    RunKeeps(Init(n), steps);
    PaxosAlways.GroupSizeStays(Init(n), steps);
  }

  // ---------------------------------------------------------------- installing the highest vote

  /** The vote is one found in the states. */
  ghost predicate Found(acc: seq<Acceptor>, hs: seq<nat>, d: DecreeId, w: Vote) {
    exists i :: 0 <= i < |hs| && hs[i] < |acc| && d in acc[hs[i]].store && acc[hs[i]].store[d] == w
  }

  /** A vote found in the states is below the highest one, or for the same value. */
  lemma FoundFits(s: State, hs: seq<nat>, d: DecreeId, w: Vote)
    requires Forward(s) && Memory(s) && States(s.acc, hs, d) && Found(s.acc, hs, d, w)
    ensures var best := ChooseVote(d, Scan(s.acc, hs, d));
      best != [] && (w.x == best[0].x || Lt(w.b, best[0].b)) && Ack(d, best[0].b, best[0].x) in s.syns
  {
    var i :| 0 <= i < |hs| && d in s.acc[hs[i]].store && s.acc[hs[i]].store[d] == w;
    ScanHas(s.acc, hs, d, Ack(d, w.b, w.x));
    ChooseVoteIsHighest(d, Scan(s.acc, hs, d));
    var best := ChooseVote(d, Scan(s.acc, hs, d))[0];
    ScanHas(s.acc, hs, d, best);
    var j :| 0 <= j < |hs| && d in s.acc[hs[j]].store && best == Ack(d, s.acc[hs[j]].store[d].b, s.acc[hs[j]].store[d].x);
    assert VoteKept(s, Cast(hs[i], d, w.b, w.x)) && VoteKept(s, Cast(hs[j], d, best.b, best.x));
  }

  /** The group's copies of d are votes from the states; the acceptors in `keep` have the highest one, and a ballot as high. */
  ghost predicate Installed(acc: seq<Acceptor>, hs: seq<nat>, d: DecreeId, s: State, keep: set<nat>)
    requires States(acc, hs, d)
  {
    && Starting(s) && keep <= Below(|s.acc|) && |keep| + Quorum(|s.acc|) > |s.acc|
    && var best := ChooseVote(d, Scan(acc, hs, d));
       && (forall a :: 0 <= a < |s.acc| && d in s.acc[a].store ==> Found(acc, hs, d, s.acc[a].store[d]))
       && (forall a :: a in keep && best != [] ==>
             && d in s.acc[a].store && s.acc[a].store[d] == Vote(best[0].b, best[0].x)
             && LiftedLe(Value(best[0].b), s.acc[a].bal) && LiftedLe(Value(best[0].b), s.acc[a].disk))
  }

  /**
   The highest vote in at least half of the states, installed with its ballot
   where every majority meets it, is the chosen value, and every later proposal
   returns it, whatever older copies are left elsewhere and whatever happens.
   */
  lemma RecoverThenPropose(n: nat, steps: seq<Step>, d: DecreeId, b: Ballot, x: Choice, quorum: set<nat>, hs: seq<nat>,
                           s: State, keep: set<nat>, later: seq<Step>, q: Decision)
    requires HalfAtHand(n, steps, d, b, x, quorum, hs) && Installed(Final(Init(n), steps).acc, hs, d, s, keep)
    requires Runs(s, later) && q in Final(s, later).decided && q.d == d
    ensures q.x == x
  {
    var before := Final(Init(n), steps);
    HalfInv(n, steps, d, b, x, quorum, hs);
    HalfRecovers(before, d, b, x, quorum, hs);
    var best := ChooseVote(d, Scan(before.acc, hs, d))[0];
    var g := Kept(d, x, Value(best.b), keep);
    forall a | 0 <= a < |s.acc| && d in s.acc[a].store ensures VoteFits(g, s.acc[a].store[d].b, s.acc[a].store[d].x) {
      FoundFits(before, hs, d, s.acc[a].store[d]);
    }
    KeptValueStays(s, later, g, q);
  }

  /** If every copy of d is the highest vote, it need not be installed with its ballot. */
  lemma InstallEverywhere(n: nat, steps: seq<Step>, d: DecreeId, b: Ballot, x: Choice, quorum: set<nat>, hs: seq<nat>,
                          s: State, later: seq<Step>, q: Decision)
    requires HalfAtHand(n, steps, d, b, x, quorum, hs) && Starting(s) && |Holders(s.acc, d)| + Quorum(|s.acc|) > |s.acc|
    requires forall a :: 0 <= a < |s.acc| && d in s.acc[a].store ==>
      [Ack(d, s.acc[a].store[d].b, s.acc[a].store[d].x)] == ChooseVote(d, Scan(Final(Init(n), steps).acc, hs, d))
    requires Runs(s, later) && q in Final(s, later).decided && q.d == d
    ensures q.x == x
  {
    HalfInv(n, steps, d, b, x, quorum, hs);
    HalfRecovers(Final(Init(n), steps), d, b, x, quorum, hs);
    RecoveredValueStays(s, later, d, x, q);
  }

  // ---------------------------------------------------------------- synchronising the seeded states

  /** The states hs are those of the acceptors `at` of the new group, and all copies of d in the group are for one value. */
  ghost predicate Seeded(acc: seq<Acceptor>, hs: seq<nat>, init: seq<Acceptor>, at: seq<nat>, d: DecreeId) {
    && |at| == |hs| && (forall i :: 0 <= i < |hs| ==> hs[i] < |acc| && at[i] < |init| && init[at[i]].store == acc[hs[i]].store)
    && (forall a, c :: 0 <= a < |init| && 0 <= c < |init| && d in init[a].store && d in init[c].store ==>
          init[a].store[d].x == init[c].store[d].x)
  }

  /**
   What the code does: seed a group with at least half of the old states, whose
   copies of d agree, synchronise it, and propose. Every later proposal returns
   the value the old group had chosen.
   */
  lemma SeedSyncPropose(n: nat, steps: seq<Step>, d: DecreeId, b: Ballot, x: Choice, quorum: set<nat>, hs: seq<nat>,
                        init: seq<Acceptor>, at: seq<nat>, syncing: seq<SyncStep>, s: State, later: seq<Step>, q: Decision)
    requires HalfAtHand(n, steps, d, b, x, quorum, hs) && Seeded(Final(Init(n), steps).acc, hs, init, at, d)
    requires SyncRuns(Begin(init), syncing) && AllAskEnough(Begin(init), syncing)
    requires Completed(SyncFinal(Begin(init), syncing))
    requires Starting(s) && s.acc == SyncFinal(Begin(init), syncing).acc && Runs(s, later)
    requires q in Final(s, later).decided && q.d == d
    ensures q.x == x
  {
    var c := SeedHasChosen(n, steps, d, b, x, quorum, hs, init, at);
    SyncThenPropose(init, syncing, s, later, c, d, q);
  }

  lemma SeedHasChosen(n: nat, steps: seq<Step>, d: DecreeId, b: Ballot, x: Choice, quorum: set<nat>, hs: seq<nat>,
                      init: seq<Acceptor>, at: seq<nat>) returns (c: nat)
    requires HalfAtHand(n, steps, d, b, x, quorum, hs) && Seeded(Final(Init(n), steps).acc, hs, init, at, d)
    ensures c < |init| && d in init[c].store && init[c].store[d].x == x
  {
    var before := Final(Init(n), steps);
    HalfInv(n, steps, d, b, x, quorum, hs);
    var i := HalfMeetsMajority(before, d, b, x, quorum, hs);
    StoredAboveChosen(before, hs[i], d, b, x, quorum);
    c := at[i];
  }

  /** The same for a gapless group, where nothing need be known about the synchronisation but that it completed. */
  lemma SeedGaplessPropose(n: nat, steps: seq<Step>, d: DecreeId, b: Ballot, x: Choice, quorum: set<nat>, hs: seq<nat>,
                           init: seq<Acceptor>, at: seq<nat>, syncing: seq<SyncStep>, s: State, later: seq<Step>, q: Decision)
    requires HalfAtHand(n, steps, d, b, x, quorum, hs) && Seeded(Final(Init(n), steps).acc, hs, init, at, d) && Gapless(init)
    requires SyncRuns(Begin(init), syncing) && Completed(SyncFinal(Begin(init), syncing))
    requires Starting(s) && s.acc == SyncFinal(Begin(init), syncing).acc && Runs(s, later)
    requires q in Final(s, later).decided && q.d == d
    ensures q.x == x
  {
    GaplessSpreads(init, syncing);
    SeedSyncPropose(n, steps, d, b, x, quorum, hs, init, at, syncing, s, later, q);
  }
}
