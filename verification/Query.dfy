/** Asking all acceptors of a group which decrees they know, while they go on working. */
module Query {
  import opened Ballots
  import opened PaxosModel
  import opened PaxosInvariant
  import opened PaxosSteps
  import opened PaxosRounds
  import opened PaxosSafety
  import opened RecoveryLimits

  datatype Result = Unknown | Known(x: Choice)

  /** The votes for d, from decree `low` on, in the states the acceptors answered from, in the order of their answers. */
  function Collect(snaps: seq<Acceptor>, low: DecreeId, d: DecreeId): (r: seq<Ack>) {
    if snaps == [] then [] else
      (if Before(d, low) then [] else Lookup(snaps[0].store, d)) + Collect(snaps[1..], low, d)
  }

  /** What is told about d: nothing, unless a majority has a vote to show. */
  function Answer(snaps: seq<Acceptor>, low: DecreeId, d: DecreeId): (r: Result) {
    var acks := Collect(snaps, low, d);
    var best := ChooseVote(d, acks);
    if |acks| >= Quorum(|snaps|) && best != [] then Known(best[0].x) else Unknown
  }

  // ---------------------------------------------------------------- what is told

  function VoteOf(a: Acceptor, d: DecreeId): (k: Ack)
    requires d in a.store
  {
    Ack(d, a.store[d].b, a.store[d].x)
  }

  lemma {:induction false} CollectHas(snaps: seq<Acceptor>, low: DecreeId, d: DecreeId, k: Ack)
    ensures k in Collect(snaps, low, d) <==>
      !Before(d, low) && exists i :: 0 <= i < |snaps| && d in snaps[i].store && k == VoteOf(snaps[i], d)
  {
    if snaps != [] {
      CollectHas(snaps[1..], low, d, k);
      if k in Collect(snaps[1..], low, d) {
        var i :| 0 <= i < |snaps[1..]| && d in snaps[1..][i].store && k == VoteOf(snaps[1..][i], d);
        assert snaps[i + 1] == snaps[1..][i];
      }
    }
  }

  /** The acceptors, by name, that have a vote for d to show. */
  function Showing(snaps: seq<Acceptor>, hs: seq<nat>, d: DecreeId): (r: set<nat>)
    requires |hs| == |snaps|
  {
    set i | 0 <= i < |hs| && d in snaps[i].store :: hs[i]
  }

  predicate Different(hs: seq<nat>) {
    forall i, j :: 0 <= i < j < |hs| ==> hs[i] != hs[j]
  }

  lemma {:induction false} CollectSize(snaps: seq<Acceptor>, hs: seq<nat>, low: DecreeId, d: DecreeId)
    requires |hs| == |snaps| && Different(hs) && !Before(d, low)
    ensures |Collect(snaps, low, d)| == |Showing(snaps, hs, d)|
  {
    if hs != [] {
      var rest := Showing(snaps[1..], hs[1..], d);
      CollectSize(snaps[1..], hs[1..], low, d);
      assert hs[0] !in rest;
      var first := if d in snaps[0].store then {hs[0]} else {};
      forall a ensures a in Showing(snaps, hs, d) <==> a in first + rest {
        if a in rest {
          var i :| 0 <= i < |hs[1..]| && d in snaps[1..][i].store && hs[1..][i] == a;
          assert hs[i + 1] == a && d in snaps[i + 1].store;
        }
        if a in Showing(snaps, hs, d) && a != hs[0] {
          var i :| 0 <= i < |hs| && d in snaps[i].store && hs[i] == a;
          assert hs[1..][i - 1] == a && d in snaps[1..][i - 1].store;
        }
      }
      assert Showing(snaps, hs, d) == first + rest;
    }
  }

  lemma {:induction false} NothingBelowLow(snaps: seq<Acceptor>, low: DecreeId, d: DecreeId)
    requires Before(d, low)
    ensures Collect(snaps, low, d) == []
  {
    if snaps != [] { NothingBelowLow(snaps[1..], low, d); }
  }

  predicate HighestVote(snaps: seq<Acceptor>, d: DecreeId, i: nat) {
    && i < |snaps| && d in snaps[i].store
    && forall j :: 0 <= j < |snaps| && d in snaps[j].store ==> Le(snaps[j].store[d].b, snaps[i].store[d].b)
  }

  /** What is chosen from the answers is the value of a vote with none above it, if there is any vote. */
  lemma ChosenIsHighest(snaps: seq<Acceptor>, low: DecreeId, d: DecreeId) returns (i: nat)
    requires Collect(snaps, low, d) != []
    ensures var best := ChooseVote(d, Collect(snaps, low, d));
      best != [] && HighestVote(snaps, d, i) && best[0] == VoteOf(snaps[i], d)
  {
    var acks := Collect(snaps, low, d);
    CollectHas(snaps, low, d, acks[0]);
    ChooseVoteIsHighest(d, acks);
    var best := ChooseVote(d, acks);
    CollectHas(snaps, low, d, best[0]);
    i :| 0 <= i < |snaps| && d in snaps[i].store && best[0] == VoteOf(snaps[i], d);
    forall j | 0 <= j < |snaps| && d in snaps[j].store ensures Le(snaps[j].store[d].b, snaps[i].store[d].b) {
      CollectHas(snaps, low, d, VoteOf(snaps[j], d));
    }
  }

  /** A decree is told exactly when it is asked about and a majority has a vote for it; what is told is a highest vote's value. */
  lemma AnswersExactly(snaps: seq<Acceptor>, hs: seq<nat>, low: DecreeId, d: DecreeId)
    requires |hs| == |snaps| && Different(hs)
    ensures Answer(snaps, low, d).Known? <==> !Before(d, low) && |Showing(snaps, hs, d)| >= Quorum(|snaps|)
    ensures Answer(snaps, low, d).Known? ==>
      exists i: nat :: HighestVote(snaps, d, i) && snaps[i].store[d].x == Answer(snaps, low, d).x
  {
    if Before(d, low) {
      NothingBelowLow(snaps, low, d);
    } else {
      CollectSize(snaps, hs, low, d);
      if Collect(snaps, low, d) != [] { var i := ChosenIsHighest(snaps, low, d); }
    }
  }

  // ---------------------------------------------------------------- answers along a run

  ghost function StateAt(s: State, steps: seq<Step>, k: nat): (r: State)
    requires Runs(s, steps) && k <= |steps|
    decreases k
  {
    if k == 0 then s else StateAt(Next(s, steps[0]), steps[1..], k - 1)
  }

  lemma StepGrows(s: State, step: Step)
    requires Enabled(s, step)
    ensures |Next(s, step).acc| == |s.acc| && s.votes <= Next(s, step).votes
  {
  }

  lemma {:induction false} StateAtInv(s: State, steps: seq<Step>, k: nat)
    requires Inv(s) && Runs(s, steps) && CleanRun(s, steps) && k <= |steps|
    ensures Inv(StateAt(s, steps, k)) && |StateAt(s, steps, k).acc| == |s.acc|
    decreases k
  {
    if k > 0 {
      StepKeeps(s, steps[0]);
      StepGrows(s, steps[0]);
      StateAtInv(Next(s, steps[0]), steps[1..], k - 1);
    }
  }

  lemma {:induction false} VotesGrow(s: State, steps: seq<Step>, j: nat, k: nat)
    requires Runs(s, steps) && j <= k <= |steps|
    ensures StateAt(s, steps, j).votes <= StateAt(s, steps, k).votes
    decreases k
  {
    if j > 0 {
      var t := Next(s, steps[0]);
      VotesGrow(t, steps[1..], j - 1, k - 1);
      assert StateAt(s, steps, j) == StateAt(t, steps[1..], j - 1) && StateAt(s, steps, k) == StateAt(t, steps[1..], k - 1);
    } else if k > 0 {
      StepGrows(s, steps[0]);
      VotesGrow(Next(s, steps[0]), steps[1..], 0, k - 1);
    }
  }

  /** Every acceptor of the group answers once, each at its own time, no earlier than step `since`; none has trimmed d. */
  ghost predicate AnsweredAt(n: nat, steps: seq<Step>, since: nat, hs: seq<nat>, times: seq<nat>, snaps: seq<Acceptor>, d: DecreeId)
    requires Runs(Init(n), steps)
  {
    && |hs| == |times| == |snaps| == n && Different(hs)
    && forall i :: 0 <= i < n ==>
         && hs[i] < n && since <= times[i] <= |steps| && !Before(d, snaps[i].start)
         && var s := StateAt(Init(n), steps, times[i]); hs[i] < |s.acc| && s.acc[hs[i]] == snaps[i]
  }

  /** A voter shows its vote or a higher one; and what anyone shows at or above the chosen ballot is the chosen value. */
  lemma ShowsChosen(s: State, a: nat, d: DecreeId, b: Ballot, x: Choice, quorum: set<nat>)
    requires Inv(s) && Chosen(s, d, b, x, quorum) && a < |s.acc| && !Before(d, s.acc[a].start)
    ensures a in quorum ==> d in s.acc[a].store && Le(b, s.acc[a].store[d].b)
    ensures d in s.acc[a].store && Le(b, s.acc[a].store[d].b) ==> s.acc[a].store[d].x == x
  {
    if a in quorum { assert VoteKept(s, Cast(a, d, b, x)); }
    if d in s.acc[a].store && Le(b, s.acc[a].store[d].b) { StoredAboveChosen(s, a, d, b, x, quorum); }
  }

  lemma SnapShows(n: nat, steps: seq<Step>, since: nat, hs: seq<nat>, times: seq<nat>, snaps: seq<Acceptor>,
                  d: DecreeId, b: Ballot, x: Choice, quorum: set<nat>, i: nat)
    requires Runs(Init(n), steps) && CleanRun(Init(n), steps) && since <= |steps|
    requires AnsweredAt(n, steps, since, hs, times, snaps, d) && Chosen(StateAt(Init(n), steps, since), d, b, x, quorum) && i < n
    ensures hs[i] in quorum ==> d in snaps[i].store && Le(b, snaps[i].store[d].b)
    ensures d in snaps[i].store && Le(b, snaps[i].store[d].b) ==> snaps[i].store[d].x == x
  {
    InitHolds(n);
    StateAtInv(Init(n), steps, since);
    StateAtInv(Init(n), steps, times[i]);
    VotesGrow(Init(n), steps, since, times[i]);
    ShowsChosen(StateAt(Init(n), steps, times[i]), hs[i], d, b, x, quorum);
  }

  lemma EveryoneAnswers(n: nat, hs: seq<nat>, a: nat) returns (i: nat)
    requires |hs| == n && Different(hs) && (forall i :: 0 <= i < n ==> hs[i] < n) && a < n
    ensures i < n && hs[i] == a
  {
    DistinctSize(hs);
    if a !in SeqSet(hs) {
      SubsetSize(SeqSet(hs), Below(n) - {a});
    }
    i :| 0 <= i < |hs| && hs[i] == a;
  }

  /** What each answer shows: voters the chosen value's ballot or more, and nobody another value that high. */
  ghost predicate ShowAll(snaps: seq<Acceptor>, hs: seq<nat>, d: DecreeId, b: Ballot, x: Choice, quorum: set<nat>) {
    |hs| == |snaps| && forall i :: 0 <= i < |snaps| ==> ShowsAt(snaps[i], hs[i], d, b, x, quorum)
  }

  predicate ShowsAt(a: Acceptor, name: nat, d: DecreeId, b: Ballot, x: Choice, quorum: set<nat>) {
    && (name in quorum ==> d in a.store && Le(b, a.store[d].b))
    && (d in a.store && Le(b, a.store[d].b) ==> a.store[d].x == x)
  }

  lemma ShownIsTold(n: nat, snaps: seq<Acceptor>, hs: seq<nat>, low: DecreeId, d: DecreeId, b: Ballot, x: Choice, quorum: set<nat>)
    requires ShowAll(snaps, hs, d, b, x, quorum) && |hs| == n && Different(hs) && (forall i :: 0 <= i < n ==> hs[i] < n)
    requires quorum <= Below(n) && |quorum| >= Quorum(n) && !Before(d, low)
    ensures Answer(snaps, low, d) == Known(x)
  {
    forall a | a in quorum ensures a in Showing(snaps, hs, d) {
      var i := EveryoneAnswers(n, hs, a);
      assert ShowsAt(snaps[i], hs[i], d, b, x, quorum);
    }
    SubsetSize(quorum, Showing(snaps, hs, d));
    CollectSize(snaps, hs, low, d);
    var i := ChosenIsHighest(snaps, low, d);
    assert quorum != {};
    var a :| a in quorum;
    var v := EveryoneAnswers(n, hs, a);
    assert ShowsAt(snaps[v], hs[v], d, b, x, quorum) && ShowsAt(snaps[i], hs[i], d, b, x, quorum);
  }

  /**
   A query that begins when x has been chosen for d tells x, although the
   acceptors answer at different times and in any order, and go on voting.
   */
  lemma QueryTellsChosen(n: nat, steps: seq<Step>, since: nat, hs: seq<nat>, times: seq<nat>, snaps: seq<Acceptor>,
                         low: DecreeId, d: DecreeId, b: Ballot, x: Choice, quorum: set<nat>)
    requires Runs(Init(n), steps) && CleanRun(Init(n), steps) && since <= |steps|
    requires Chosen(StateAt(Init(n), steps, since), d, b, x, quorum)
    requires AnsweredAt(n, steps, since, hs, times, snaps, d) && !Before(d, low)
    ensures Answer(snaps, low, d) == Known(x)
  {
    InitHolds(n);
    StateAtInv(Init(n), steps, since);
    forall i | 0 <= i < n ensures ShowsAt(snaps[i], hs[i], d, b, x, quorum) {
      SnapShows(n, steps, since, hs, times, snaps, d, b, x, quorum, i);
    }
    ShownIsTold(n, snaps, hs, low, d, b, x, quorum);
  }
}
