/** Exactly when an acceptor keeps its highest vote: a restart may make it overwrite one with a lower. */
module StoreLimits {
  import opened Ballots
  import opened PaxosModel
  import opened PaxosMoves
  import opened PaxosHistory
  import opened PaxosAlways
  import A = AgreementLimits

  /** No acceptor holds a lower vote for a decree than one it has cast. */
  ghost predicate KeepsHighest(s: State) {
    forall v :: v in s.votes && v.a < |s.acc| && v.d in s.acc[v.a].store ==> Le(v.b, s.acc[v.a].store[v.d].b)
  }

  ghost predicate AllRunsKeepHighest(n: nat, mode: Mode) {
    forall steps :: Runs(Init(n), steps) && AllAllowed(Init(n), steps, mode) ==> KeepsHighest(Final(Init(n), steps))
  }

  /** No vote is ever taken out of the history. */
  lemma VotesStay(s: State, t: State, mode: Mode)
    requires Reaches(s, t, mode)
    ensures s.votes <= t.votes
  {
    var r := (a: State, b: State) => a.votes <= b.votes;
    assert Closed(r, mode);
    assert r(s, t);
  }

  /** Acceptor 0 has voted for 20 at B1, and its majority has restarted: no ballot is left, the vote is. */
  lemma VoteWithoutBallot(n: nat) returns (t: State)
    requires n >= 1
    ensures Reaches(Init(n), t, FORGET) && |t.acc| == n && t.procs.Keys == {1} && Cast(0, A.D, A.B1, 20) in t.votes
    ensures t.acc[0].store == map[A.D := Vote(A.B1, 20)] && forall a :: 0 < a < n ==> t.acc[a].store == map[]
    ensures A.Ready(t, 0, n, A.B0)
  {
    var s1 := A.FirstScout(n, 1, 20, FORGET);
    var s2 := A.AcceptRange(s1, A.B1, 1, 20, 0, 1, FORGET);
    ReachesMore(Init(n), s1, s2, FORGET);
    t := RestartRange(s2, Quorum(n));
    ReachesMore(Init(n), s2, t, FORGET);
    StoredWasCast(n, s2);
    VotesStay(s2, t, FORGET);
  }

  lemma StoredWasCast(n: nat, s: State)
    requires Reaches(Init(n), s, FORGET) && n >= 1 && |s.acc| == n && A.D in s.acc[0].store
    ensures Cast(0, A.D, s.acc[0].store[A.D].b, s.acc[0].store[A.D].x) in s.votes
  {
    var steps := ReachesByRun(Init(n), s, FORGET);
    HoldsExactly(n, steps, 0, A.D);
  }

  /** Proposer 0 then passes 20 on at its lower ballot, and acceptor 0 overwrites its vote. */
  lemma LowerVoteOverwrites(n: nat) returns (t: State)
    requires n >= 1
    ensures Reaches(Init(n), t, FORGET) && |t.acc| == n && Cast(0, A.D, A.B1, 20) in t.votes
    ensures t.acc[0].store == map[A.D := Vote(A.B0, 20)] && !KeepsHighest(t)
  {
    var s1 := VoteWithoutBallot(n);
    var s2 := A.OpenProposal(s1, 0, 10, FORGET);
    ReachesMore(Init(n), s1, s2, FORGET);
    var s3 := A.ScoutMajority(s2, 0, 0, Quorum(n), 20, A.B1, 0, FORGET);
    ReachesMore(Init(n), s2, s3, FORGET);
    t := A.AcceptRange(s3, A.B0, s3.procs[0].me, 20, 0, 1, FORGET);
    ReachesMore(Init(n), s3, t, FORGET);
    VotesStay(s1, s2, FORGET);
    VotesStay(s2, s3, FORGET);
    VotesStay(s3, t, FORGET);
    assert t.acc[0].store == map[A.D := Vote(A.B0, 20)];
    assert !Le(A.B1, A.B0);
  }

  /** In all runs every acceptor keeps its highest vote exactly when no step may forget a promise, or there is no acceptor. */
  lemma KeepsHighestExactly(n: nat, mode: Mode)
    ensures AllRunsKeepHighest(n, mode) <==> n == 0 || !mode.forget
  {
    if n > 0 && mode.forget {
      var t := LowerVoteOverwrites(n);
      var steps := ReachesByRun(Init(n), t, FORGET);
      A.MoreAllowed(Init(n), steps, FORGET, mode);
    } else {
      forall steps | Runs(Init(n), steps) && AllAllowed(Init(n), steps, mode) ensures KeepsHighest(Final(Init(n), steps)) {
        RunKeepsHighest(n, steps, mode);
      }
    }
  }

  lemma RunKeepsHighest(n: nat, steps: seq<Step>, mode: Mode)
    requires Runs(Init(n), steps) && AllAllowed(Init(n), steps, mode) && (n == 0 || !mode.forget)
    ensures KeepsHighest(Final(Init(n), steps))
  {
    var s := Final(Init(n), steps);
    GroupSizeStays(Init(n), steps);
    forall v | v in s.votes && v.a < |s.acc| && v.d in s.acc[v.a].store ensures Le(v.b, s.acc[v.a].store[v.d].b) {
      assert Remembers(n, steps);
      HoldsExactly(n, steps, v.a, v.d);
    }
  }
}
