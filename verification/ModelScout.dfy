/**
 The scout of the Promela model in the runs of the code: when it would put
 forward the value the code puts forward, and when not.
 */
module ModelScout {
  import opened Ballots
  import opened PaxosModel
  import opened PaxosInvariant
  import opened PaxosSteps
  import opened PaxosRounds
  import opened PaxosSafety
  import opened PaxosMoves
  import opened AgreementLimits
  import AckSets
  import PaxosAlways

  /** The step is the last promise a scout waits for. */
  predicate Fills(s: State, step: Step) {
    && step.Receive? && step.rep.Promise? && step.p in s.procs && s.procs[step.p].Scouting?
    && |s.procs[step.p].heard| + 1 == Quorum(|s.acc|)
  }

  function AllHeard(s: State, step: Step): (heard: seq<Heard>)
    requires Fills(s, step)
  {
    [Heard(step.src, step.rep.acks)] + s.procs[step.p].heard
  }

  /** The value the code puts forward. */
  function CodeValue(s: State, step: Step): (y: Choice)
    requires Fills(s, step)
  {
    var ph := s.procs[step.p];
    var best := ChooseVote(ph.d, Concat(AllHeard(s, step)));
    if best == [] then ph.x else best[0].x
  }

  /** The reported votes in the order they arrived. */
  function Arrived(s: State, step: Step): (votes: seq<Vote>)
    requires Fills(s, step)
    ensures var acks := Concat(AllHeard(s, step));
      |votes| == |acks| && forall i :: 0 <= i < |acks| ==> votes[i].x == acks[|acks| - 1 - i].x
  {
    var acks := Concat(AllHeard(s, step));
    seq(|acks|, i requires 0 <= i < |acks| => Vote(acks[|acks| - 1 - i].b, acks[|acks| - 1 - i].x))
  }

  /** The value the Promela scout puts forward on the same replies. */
  ghost function ModelValue(s: State, step: Step): (y: Choice)
    requires Fills(s, step)
  {
    var votes := Arrived(s, step);
    if votes == [] then s.procs[step.p].x else AckSets.ModelChoice(votes, s.procs[step.p].b)
  }

  /** The value is indeed what the code asks for votes for next. */
  lemma CodeValueIsSent(s: State, step: Step)
    requires Enabled(s, step) && Fills(s, step)
    ensures var ph := s.procs[step.p];
      Next(s, step).procs == s.procs[step.p := Commanding(ph.d, ph.x, ph.b, |s.atts|, CodeValue(s, step), [])]
  {
  }

  // ---------------------------------------------------------------- groups of at most two

  lemma PromiseWasCast(s: State, d: DecreeId, b: Ballot, h: Heard, k: Ack)
    requires PromiseOk(s, h.src, d, b, h.acks) && k in h.acks
    ensures k.d == d && exists a: nat :: Cast(a, d, k.b, k.x) in s.votes
  {
    assert Cast(h.src, d, k.b, k.x) in s.votes;
  }

  lemma HeardPromiseOk(s: State, step: Step, i: nat)
    requires Shape(s) && Answers(s) && Enabled(s, step) && Fills(s, step) && i < |AllHeard(s, step)|
    ensures PromiseOk(s, AllHeard(s, step)[i].src, s.procs[step.p].d, s.procs[step.p].b, AllHeard(s, step)[i].acks)
  {
    var ph := s.procs[step.p];
    if i == 0 {
      assert AttemptOf(s, step.p, ph) && ReplyOk(s, step.src, ph.me, step.rep);
    } else {
      assert HeardOk(s, ph, i - 1);
    }
  }

  lemma ReportWasCast(s: State, step: Step, k: Ack)
    requires Shape(s) && Answers(s) && Enabled(s, step) && Fills(s, step) && k in Concat(AllHeard(s, step))
    ensures k.d == s.procs[step.p].d && exists a: nat :: Cast(a, k.d, k.b, k.x) in s.votes
  {
    var heard := AllHeard(s, step);
    ConcatHas(heard, k);
    var i :| 0 <= i < |heard| && k in heard[i].acks;
    HeardPromiseOk(s, step, i);
    PromiseWasCast(s, s.procs[step.p].d, s.procs[step.p].b, heard[i], k);
  }

  lemma SmallReportsAgree(s: State, step: Step, k: Ack, l: Ack)
    requires Inv(s) && |s.acc| <= 2 && Enabled(s, step) && Fills(s, step)
    requires k in Concat(AllHeard(s, step)) && l in Concat(AllHeard(s, step))
    ensures k.x == l.x
  {
    ReportWasCast(s, step, k);
    ReportWasCast(s, step, l);
    var a: nat :| Cast(a, k.d, k.b, k.x) in s.votes;
    var c: nat :| Cast(c, l.d, l.b, l.x) in s.votes;
    SmallVotesAgree(s, Cast(a, k.d, k.b, k.x), Cast(c, l.d, l.b, l.x));
  }

  lemma SmallScoutsAlike(s: State, step: Step)
    requires Inv(s) && |s.acc| <= 2 && Enabled(s, step) && Fills(s, step)
    ensures ModelValue(s, step) == CodeValue(s, step)
  {
    var acks := Concat(AllHeard(s, step));
    ChooseVoteIsHighest(s.procs[step.p].d, acks);
    if acks != [] {
      var first := acks[|acks| - 1];
      ReportWasCast(s, step, first);
      var best := ChooseVote(s.procs[step.p].d, acks);
      SmallReportsAgree(s, step, first, best[0]);
      AckSets.ModelTakesFirst(Arrived(s, step), s.procs[step.p].b);
    }
  }

  // ---------------------------------------------------------------- groups of three or more

  lemma {:induction false} ConcatLast(xs: seq<Heard>, h: Heard)
    ensures Concat(xs + [h]) == Concat(xs) + h.acks
  {
    if xs == [] {
      assert xs + [h] == [h] && [h][1..] == [];
    } else {
      assert (xs + [h])[1..] == xs[1..] + [h];
      ConcatLast(xs[1..], h);
      assert xs[0].acks + (Concat(xs[1..]) + h.acks) == (xs[0].acks + Concat(xs[1..])) + h.acks;
    }
  }

  /** 20 has been returned; proposer 2 has promises from everybody on their way, one of which reports 10, from a lower ballot. */
  ghost predicate TwentyChosen(s: State, n: nat) {
    && n >= 3 && |s.acc| == n && 2 in s.procs && s.procs[2].Scouting? && s.procs[2].d == D && s.procs[2].b == B2
    && s.procs[2].heard == [] && Has(s, 20)
    && (forall a :: 0 <= a < Quorum(n) ==> Rep(a, s.procs[2].me, Promise(B2, [Ack(D, B1, 20)])) in s.net)
    && Rep(n - 1, s.procs[2].me, Promise(B2, [Ack(D, B0, 10)])) in s.net
  }

  lemma ChooseTwenty(n: nat) returns (t: State)
    requires n >= 3
    ensures Reaches(Init(n), t, CLEAN) && TwentyChosen(t, n)
  {
    var m := Quorum(n);
    var s := OldVote(n, CLEAN);
    var s1 := SendFirstSyn(s, n, CLEAN);
    ReachesMore(Init(n), s, s1, CLEAN);
    var s2 := VoteMajority(s1, 1, 0, m, CLEAN);
    ReachesMore(Init(n), s1, s2, CLEAN);
    var s3 := OpenProposal(s2, 2, 30, CLEAN);
    ReachesMore(Init(n), s2, s3, CLEAN);
    t := PromiseRange(s3, B2, |s2.atts|, 0, n, CLEAN);
    ReachesMore(Init(n), s3, t, CLEAN);
    var me := t.procs[2].me;
    forall a | 0 <= a < m ensures Rep(a, me, Promise(B2, [Ack(D, B1, 20)])) in t.net {
      assert Lookup(s3.acc[a].store, D) == [Ack(D, B1, 20)];
    }
    assert Lookup(s3.acc[n - 1].store, D) == [Ack(D, B0, 10)];
  }

  /** Proposer 2 hears of 10 first, and then of 20 by all but one of the rest of a majority. */
  ghost predicate TenHeardFirst(s: State, n: nat) {
    && n >= 3 && |s.acc| == n && 2 in s.procs && s.procs[2].Scouting? && s.procs[2].d == D && s.procs[2].b == B2
    && |s.procs[2].heard| + 1 == Quorum(n) && AllFor(s.procs[2], 20, B1) && Has(s, 20)
    && s.procs[2].heard[|s.procs[2].heard| - 1] == Heard(n - 1, [Ack(D, B0, 10)])
    && Rep(0, s.procs[2].me, Promise(B2, [Ack(D, B1, 20)])) in s.net
  }

  lemma HearTenFirst(s: State, n: nat) returns (t: State)
    requires TwentyChosen(s, n)
    ensures Reaches(s, t, CLEAN) && TenHeardFirst(t, n)
  {
    var step := Receive(2, n - 1, Promise(B2, [Ack(D, B0, 10)]));
    var u := Next(s, step);
    ReachesStep(s, step, CLEAN);
    forall a | 1 <= a < Quorum(n) - 1 ensures PromiseFrom(u, u.procs[2], a, 20, B1) {
      assert Rep(a, u.procs[2].me, Promise(B2, [Ack(D, B1, 20)])) in u.net && For(D, 20, B1, [Ack(D, B1, 20)]);
    }
    t := HearRange(u, 2, 1, Quorum(n) - 1, 20, B1, CLEAN);
    ReachesMore(s, u, t, CLEAN);
    var more := Quorum(n) - 2;
    assert t.procs[2].heard[more..] == u.procs[2].heard;
    assert t.procs[2].heard[more] == t.procs[2].heard[more..][0];
  }

  /** With three or more acceptors the Promela scout would drop a value that was chosen and returned. */
  lemma ModelScoutDropsChosen(n: nat) returns (t: State, step: Step)
    requires n >= 3
    ensures Reaches(Init(n), t, CLEAN) && Enabled(t, step) && Fills(t, step)
    ensures Has(t, 20) && t.procs[step.p].d == D && CodeValue(t, step) == 20 && ModelValue(t, step) == 10
  {
    var s := ChooseTwenty(n);
    t := HearTenFirst(s, n);
    ReachesMore(Init(n), s, t, CLEAN);
    step := Receive(2, 0, Promise(B2, [Ack(D, B1, 20)]));
    var ph := t.procs[2];
    var heard := AllHeard(t, step);
    ChoiceFromReports(ph.(heard := heard), 20, B1);
    var last := Heard(n - 1, [Ack(D, B0, 10)]);
    assert heard == heard[..|heard| - 1] + [last];
    ConcatLast(heard[..|heard| - 1], last);
    AckSets.ModelTakesFirst(Arrived(t, step), B2);
  }

  // ---------------------------------------------------------------- the exact condition

  /** In every clean run, a scout of the model would choose what the scout of the code chooses. */
  ghost predicate ScoutsAlike(n: nat) {
    forall steps, step :: Runs(Init(n), steps) && CleanRun(Init(n), steps)
      && Enabled(Final(Init(n), steps), step) && Fills(Final(Init(n), steps), step)
      ==> ModelValue(Final(Init(n), steps), step) == CodeValue(Final(Init(n), steps), step)
  }

  /** The scouts agree in all clean runs exactly in groups of at most two, the size the model is explored for. */
  lemma ModelScoutExactly(n: nat)
    ensures ScoutsAlike(n) <==> n <= 2
  {
    if n <= 2 {
      forall steps, step | Runs(Init(n), steps) && CleanRun(Init(n), steps)
        && Enabled(Final(Init(n), steps), step) && Fills(Final(Init(n), steps), step)
        ensures ModelValue(Final(Init(n), steps), step) == CodeValue(Final(Init(n), steps), step)
      {
        InitHolds(n);
        RunKeeps(Init(n), steps);
        PaxosAlways.GroupSizeStays(Init(n), steps);
        SmallScoutsAlike(Final(Init(n), steps), step);
      }
    } else {
      var t, step := ModelScoutDropsChosen(n);
      var steps := ReachesByRun(Init(n), t, CLEAN);
      AllowedRunsAreClean(Init(n), steps, CLEAN);
    }
  }
}
