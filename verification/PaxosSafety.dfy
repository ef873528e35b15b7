/** The safety of every run whose steps are clean. */
module PaxosSafety {
  import opened Ballots
  import opened PaxosModel
  import opened PaxosInvariant
  import opened PaxosSteps
  import opened PaxosRounds

  // ---------------------------------------------------------------- each step

  lemma ProposeKeeps(s: State, p: nat, d: DecreeId, x: Choice)
    requires Inv(s) && p !in s.procs
    ensures Inv(Next(s, Propose(p, d, x)))
  {
    var t := s.(asked := s.asked + {(d, x)});
    AskKeeps(s, t);
    forall k | k in t.syns && k.b.pid == p ensures Finished(t, p, k.d, k.b) { assert OwnSyn(t, p, k); }
    StartScoutKeeps(t, p, d, x, Ballot(0, p));
  }

  lemma AskKeeps(s: State, t: State)
    requires Inv(s) && s.asked <= t.asked && t == s.(asked := t.asked)
    ensures Inv(t)
  {
    assert Extends(s, t);
    SameNetwork(s, t);
    SameDecisions(s, t);
    MemoryCarries(s, t);
    AnswersCarry(s, t) by { assert Shape(s); }
    JustificationsCarry(s, t);
    FreshCarries(s, t);
  }

  lemma TimeoutKeeps(s: State, p: nat)
    requires Inv(s) && p in s.procs
    ensures Inv(TimedOut(s, p))
  {
    var ph := s.procs[p];
    assert AttemptOf(s, p, ph);
    if ph.Scouting? {
      OwnBallotMayScout(s, p);
      StartScoutKeeps(s, p, ph.d, ph.x, ph.b);
    } else {
      var k := Ack(ph.d, ph.b, ph.y);
      assert k in s.syns;
      ScoutedMayCommand(s, p);
      PutForwardKeeps(s, p, ph.d, ph.x, ph.b, ph.y, s.syns[k]);
    }
  }

  lemma OwnBallotMayScout(s: State, p: nat)
    requires Fresh(s) && p in s.procs && s.procs[p].Scouting?
    ensures MayScout(s, p, s.procs[p].d, s.procs[p].b)
  {
    var ph := s.procs[p];
    forall k | k in s.syns && k.b.pid == p
      ensures Finished(s, p, k.d, k.b)
        || (k.d == ph.d && (Lt(k.b, ph.b) || (k.b == ph.b && |s.acc| <= 2 && Refused(s, ph.b))))
    {
      assert OwnSyn(s, p, k);
    }
  }

  /** The retry ballot after a refusal: above everything sent, or blocked by the acceptor that refused. */
  lemma RetryMayScout(s: State, p: nat, src: nat, nack: Ballot, b': Ballot)
    requires Shape(s) && Fresh(s) && p in s.procs && AtLeast(s, src, nack) && Lt(s.procs[p].b, nack)
    requires b' == if s.procs[p].Scouting? then NextAfterScout(s.procs[p].b, nack) else NextAfterCommand(s.procs[p].b, nack)
    requires s.procs[p].Commanding? && nack.n == s.procs[p].b.n ==> |s.acc| <= 2
    ensures MayScout(s, p, s.procs[p].d, b') && b'.pid == p
  {
    var ph := s.procs[p];
    assert AttemptOf(s, p, ph);
    forall k | k in s.syns && k.b.pid == p
      ensures Finished(s, p, k.d, k.b)
        || (k.d == ph.d && (Lt(k.b, b') || (k.b == b' && |s.acc| <= 2 && Refused(s, b'))))
    {
      assert OwnSyn(s, p, k);
      if b' == ph.b { assert LiftedLt(Value(b'), s.acc[src].bal); }
    }
  }

  lemma NackKeeps(s: State, p: nat, src: nat, rep: Reply)
    requires Inv(s) && Enabled(s, Receive(p, src, rep)) && Clean(s, Receive(p, src, rep)) && rep.Nack?
    ensures Inv(Received(s, p, src, rep))
  {
    var ph := s.procs[p];
    var t := s.(net := s.net - {Rep(src, ph.me, rep)});
    assert ReplyOf(s, src, ph.me, rep) && ReplyOk(s, src, ph.me, rep) && AttemptOf(s, p, ph);
    DropKeeps(s, Rep(src, ph.me, rep));
    var b' := if ph.Scouting? then NextAfterScout(ph.b, rep.b) else NextAfterCommand(ph.b, rep.b);
    RetryMayScout(t, p, src, rep.b, b');
    StartScoutKeeps(t, p, ph.d, ph.x, b');
  }

  lemma PromiseKeeps(s: State, p: nat, src: nat, rep: Reply)
    requires Inv(s) && Enabled(s, Receive(p, src, rep)) && rep.Promise?
    ensures Inv(Received(s, p, src, rep))
  {
    var ph := s.procs[p];
    var ph' := ph.(heard := [Heard(src, rep.acks)] + ph.heard);
    var u := s.(net := s.net - {Rep(src, ph.me, rep)}, procs := s.procs[p := ph']);
    CountKeeps(s, u, p, src, rep, ph');
    if |ph'.heard| == Quorum(|s.acc|) {
      assert AttemptOf(u, p, ph');
      ChoiceMayGoForward(u, p);
      ScoutedMayCommand(u, p);
      var best := ChooseVote(ph.d, Concat(ph'.heard));
      var y := if best == [] then ph.x else best[0].x;
      var prev := if best == [] then Bottom else Value(best[0].b);
      PutForwardKeeps(u, p, ph.d, ph.x, ph.b, y, Justification(Sources(ph'.heard), prev));
      PromisedForgetsCount(s, u, p, src, rep, y, Justification(Sources(ph'.heard), prev));
    }
  }

  /** Opening the command round replaces the count that was kept during the scout. */
  lemma PromisedForgetsCount(s: State, u: State, p: nat, src: nat, rep: Reply, y: Choice, j: Justification)
    requires p in s.procs && s.procs[p].Scouting? && rep.Promise? && p in u.procs
    requires u == s.(net := s.net - {Rep(src, s.procs[p].me, rep)}, procs := s.procs[p := u.procs[p]])
    ensures var ph := s.procs[p];
      StartCommand(Record(u, ph.d, ph.b, y, j), p, ph.d, ph.x, ph.b, y)
      == StartCommand(Record(s.(net := s.net - {Rep(src, ph.me, rep)}), ph.d, ph.b, y, j), p, ph.d, ph.x, ph.b, y)
  {
    var ph' := Commanding(s.procs[p].d, s.procs[p].x, s.procs[p].b, |s.atts|, y, []);
    assert u.procs[p := ph'] == s.procs[p := ph'];
  }

  lemma AcceptedKeeps(s: State, p: nat, src: nat, rep: Reply)
    requires Inv(s) && Enabled(s, Receive(p, src, rep)) && rep.Accepted?
    ensures Inv(Received(s, p, src, rep))
  {
    var ph := s.procs[p];
    var ph' := ph.(heardFrom := [src] + ph.heardFrom);
    var u := s.(net := s.net - {Rep(src, ph.me, rep)}, procs := s.procs[p := ph']);
    CountKeeps(s, u, p, src, rep, ph');
    AcknowledgedIsDecide(s, u, p, src, rep);
    if |ph'.heardFrom| == Quorum(|s.acc|) { DecideKeeps(u, p); }
  }

  lemma AcknowledgedIsDecide(s: State, u: State, p: nat, src: nat, rep: Reply)
    requires p in s.procs && s.procs[p].Commanding? && rep.Accepted?
    requires var ph := s.procs[p];
      u == s.(net := s.net - {Rep(src, ph.me, rep)}, procs := s.procs[p := ph.(heardFrom := [src] + ph.heardFrom)])
    ensures Received(s, p, src, rep)
      == if |u.procs[p].heardFrom| == Quorum(|s.acc|) then Decide(u, p) else u
  {
    assert u.procs - {p} == s.procs - {p};
  }

  lemma AbandonKeepsFresh(s: State, p: nat)
    requires Fresh(s) && p in s.procs && !ForgetsSyn(s, Abandon(p))
    ensures Fresh(Abandoned(s, p))
  {
    var t := Abandoned(s, p);
    assert Extends(s, t);
    forall k | k in t.syns ensures OwnSyn(t, k.b.pid, k) {
      assert OwnSyn(s, k.b.pid, k);
      if k.b.pid == p { assert Finished(t, p, k.d, k.b); } else { OwnSynCarries(s, t, k.b.pid, k); }
    }
  }

  lemma AbandonKeeps(s: State, p: nat)
    requires Inv(s) && p in s.procs && !ForgetsSyn(s, Abandon(p))
    ensures Inv(Abandoned(s, p))
  {
    var t := Abandoned(s, p);
    assert Extends(s, t);
    AbandonKeepsShape(s, p);
    AbandonKeepsFresh(s, p);
    MemoryCarries(s, t);
    AnswersCarry(s, t) by { assert Shape(s); }
    JustificationsCarry(s, t);
    AbandonKeepsAgain(s, p);
  }

  lemma AbandonKeepsAgain(s: State, p: nat)
    requires Again(s)
    ensures Again(Abandoned(s, p))
  {
    var t := Abandoned(s, p);
    forall p', q | p' in t.procs && t.procs[p'].Scouting? && q in t.decided && q.p == p' && q.d == t.procs[p'].d
      ensures StartsOver(t, t.procs[p'], q)
    {
      StartsOverCarries(s, t, s.procs[p'], q);
    }
  }

  lemma StepKeeps(s: State, step: Step)
    requires Inv(s) && Enabled(s, step) && Clean(s, step)
    ensures Inv(Next(s, step))
  {
    match step
    case Propose(p, d, x) => ProposeKeeps(s, p, d, x);
    case Handle(a, req) => HandleKeeps(s, a, req);
    case Receive(p, src, rep) =>
      if rep.Nack? { NackKeeps(s, p, src, rep); }
      else if rep.Promise? { PromiseKeeps(s, p, src, rep); }
      else { AcceptedKeeps(s, p, src, rep); }
    case Timeout(p) => TimeoutKeeps(s, p);
    case Abandon(p) => AbandonKeeps(s, p);
    case Trim(a, d) => TrimKeeps(s, a, d);
    case Restart(a) => assert Next(s, step) == s;
  }

  lemma {:induction false} RunKeeps(s: State, steps: seq<Step>)
    requires Inv(s) && Runs(s, steps) && CleanRun(s, steps)
    ensures Inv(Final(s, steps))
    decreases |steps|
  {
    if steps != [] {
      StepKeeps(s, steps[0]);
      RunKeeps(Next(s, steps[0]), steps[1..]);
    }
  }

  // ---------------------------------------------------------------- what the invariant gives

  /** A majority has voted for x on decree d at ballot b. */
  predicate Chosen(s: State, d: DecreeId, b: Ballot, x: Choice, quorum: set<nat>) {
    && quorum <= Below(|s.acc|) && |quorum| >= Quorum(|s.acc|)
    && forall a :: a in quorum ==> Cast(a, d, b, x) in s.votes
  }

  /** Voters that every majority meets bind all values put forward at their ballot or above. */
  lemma {:induction false} VotersBind(s: State, d: DecreeId, b: Ballot, x: Choice, voters: set<nat>, k: Ack)
    requires Forward(s) && Memory(s) && voters <= Below(|s.acc|) && |voters| + Quorum(|s.acc|) > |s.acc|
    requires forall a :: a in voters ==> Cast(a, d, b, x) in s.votes
    requires k in s.syns && k.d == d && Le(b, k.b)
    ensures k.x == x
    decreases k.b.n, k.b.pid
  {
    var j := s.syns[k];
    assert Justified(s, k, j);
    var a := SetsMeet(|s.acc|, voters, j.quorum);
    var v := Cast(a, d, b, x);
    assert VoteKept(s, v);
    if b == k.b {
      assert k == Ack(d, b, x);
    } else {
      VotersBind(s, d, b, x, voters, Ack(d, j.prev.b, k.x));
    }
  }

  /** Once a majority has voted for a value, nothing else is put forward at that ballot or above. */
  lemma ChosenIsStable(s: State, d: DecreeId, b: Ballot, x: Choice, quorum: set<nat>, k: Ack)
    requires Forward(s) && Memory(s) && Chosen(s, d, b, x, quorum)
    requires k in s.syns && k.d == d && Le(b, k.b)
    ensures k.x == x
  {
    VotersBind(s, d, b, x, quorum, k);
  }

  /** In a group of at most two, where every majority is everybody, all votes for a decree have one value. */
  lemma SmallVotesAgree(s: State, v: Cast, w: Cast)
    requires Forward(s) && Memory(s) && |s.acc| <= 2 && v in s.votes && w in s.votes && v.d == w.d
    ensures v.x == w.x
  {
    var (lo, hi) := if Le(v.b, w.b) then (v, w) else (w, v);
    assert VoteKept(s, lo) && VoteKept(s, hi);
    VotersBind(s, lo.d, lo.b, lo.x, {lo.a}, Ack(hi.d, hi.b, hi.x));
  }

  lemma InvAgrees(s: State)
    requires Inv(s)
    ensures Agreement(s)
  {
    forall q1, q2 | q1 in s.decided && q2 in s.decided && q1.d == q2.d ensures q1.x == q2.x {
      DecisionsAgree(s, q1, q2);
    }
  }

  lemma DecisionsAgree(s: State, q1: Decision, q2: Decision)
    requires Forward(s) && Memory(s) && Settled(s)
    requires q1 in s.decided && q2 in s.decided && q1.d == q2.d
    ensures q1.x == q2.x
  {
    var (lo, hi) := if Le(q1.b, q2.b) then (q1, q2) else (q2, q1);
    assert hi.quorum != {};
    var a :| a in hi.quorum;
    assert VoteKept(s, Cast(a, hi.d, hi.b, hi.x));
    ChosenIsStable(s, lo.d, lo.b, lo.x, lo.quorum, Ack(hi.d, hi.b, hi.x));
  }

  /** Agreement, for any number of acceptors, proposers and decrees and any clean schedule. */
  lemma CleanRunsAgree(n: nat, steps: seq<Step>)
    requires Runs(Init(n), steps) && CleanRun(Init(n), steps)
    ensures Agreement(Final(Init(n), steps))
  {
    InitHolds(n);
    RunKeeps(Init(n), steps);
    InvAgrees(Final(Init(n), steps));
  }

  /** Once a majority has voted for x, a clean run puts nothing but x forward for the decree at that ballot or above. */
  lemma CleanRunsKeepChosen(n: nat, steps: seq<Step>, d: DecreeId, b: Ballot, x: Choice, quorum: set<nat>, k: Ack)
    requires Runs(Init(n), steps) && CleanRun(Init(n), steps)
    requires Chosen(Final(Init(n), steps), d, b, x, quorum)
    requires k in Final(Init(n), steps).syns && k.d == d && Le(b, k.b)
    ensures k.x == x
  {
    InitHolds(n);
    RunKeeps(Init(n), steps);
    ChosenIsStable(Final(Init(n), steps), d, b, x, quorum, k);
  }

  /** In a clean run a ballot belongs to one proposer and carries at most one value for a decree. */
  lemma CleanRunsOneValue(n: nat, steps: seq<Step>, i: nat, j: nat)
    requires Runs(Init(n), steps) && CleanRun(Init(n), steps)
    requires var atts := Final(Init(n), steps).atts;
      i < |atts| && j < |atts| && atts[i].Command? && atts[j].Command? && atts[i].d == atts[j].d && atts[i].b == atts[j].b
    ensures var atts := Final(Init(n), steps).atts; atts[i] == atts[j] && atts[i].b.pid == atts[i].p
  {
    InitHolds(n);
    RunKeeps(Init(n), steps);
    var s := Final(Init(n), steps);
    assert Ack(s.atts[i].d, s.atts[i].b, s.atts[i].x) in s.syns && Ack(s.atts[j].d, s.atts[j].b, s.atts[j].x) in s.syns;
  }
}
